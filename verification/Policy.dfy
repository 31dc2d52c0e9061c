/** Metadata policies: merging them along a chain, and applying the result. */
module Policy {
  import opened Wrappers

  // A metadata value. Scalars are strings.
  datatype Val = One(s: string) | Many(xs: seq<string>)

  // The operators of one claim. The operands of subset_of, superset_of and one_of are only
  // ever used as sets. Operators the code does not know are weeded out.
  datatype ClaimPolicy = ClaimPolicy(
    subsetOf: Option<set<string>>,
    supersetOf: Option<set<string>>,
    oneOf: Option<set<string>>,
    add: Option<Val>,
    value: Option<Val>,
    default_: Option<Val>,
    essential: Option<bool>)

  const NO_POLICY := ClaimPolicy(None, None, None, None, None, None, None)

  datatype Op = SubsetOf | SupersetOf | OneOf | Add | Value | Default | Essential

  datatype PolicyError = PolicyError | IndexError

  // The order in which list(set(...)) enumerates.
  type Lister = set<string> -> seq<string>

  ghost predicate ValidLister(lst: Lister) {
    forall s :: Elements(lst(s)) == s
  }

  function Elements(xs: seq<string>): set<string> {
    set x | x in xs
  }

  // set(v): a string is iterated character by character.
  function PySet(v: Val): set<string> {
    match v
    case One(s) => set i | 0 <= i < |s| :: [s[i]]
    case Many(xs) => Elements(xs)
  }

  // The set that the code builds when it distinguishes lists from scalars.
  function AsSet(v: Val): set<string> {
    match v
    case One(s) => {s}
    case Many(xs) => Elements(xs)
  }

  predicate Has(p: ClaimPolicy, op: Op) {
    match op
    case SubsetOf => p.subsetOf.Some?
    case SupersetOf => p.supersetOf.Some?
    case OneOf => p.oneOf.Some?
    case Add => p.add.Some?
    case Value => p.value.Some?
    case Default => p.default_.Some?
    case Essential => p.essential.Some?
  }

  function Operators(p: ClaimPolicy): set<Op> {
    set op | Has(p, op)
  }

  /* Operators, one by one. */

  // do_sub_one_super_add for the operators that intersect.
  function DoIntersect(superior: Option<set<string>>, child: Option<set<string>>): Result<Option<set<string>>, PolicyError> {
    if superior.Some? && child.Some? then
      if superior.value * child.value != {} then Ok(Some(superior.value * child.value)) else Err(PolicyError)
    else if superior.Some? then Ok(superior)
    else Ok(child)
  }

  // do_sub_one_super_add for add.
  function DoAdd(superior: Option<Val>, child: Option<Val>, lst: Lister): Result<Option<Val>, PolicyError> {
    if superior.Some? && child.Some? then
      var union := AsSet(superior.value) + AsSet(child.value);
      if union != {} then Ok(Some(Many(lst(union)))) else Err(PolicyError)
    else if superior.Some? then Ok(superior)
    else Ok(child)
  }

  // do_value and do_default.
  function DoSame(superior: Option<Val>, child: Option<Val>): Result<Option<Val>, PolicyError> {
    if superior.Some? && child.Some? then
      if superior.value == child.value then Ok(superior) else Err(PolicyError)
    else if superior.Some? then Ok(superior)
    else Ok(child)
  }

  // A child can turn False into True. Absent in the superior counts as True.
  function DoEssential(superior: Option<bool>, child: Option<bool>): Option<bool> {
    if superior.Some? && child.Some? then
      if !superior.value && child.value then Some(true) else superior
    else if superior.Some? then superior
    else if child.Some? then Some(true)
    else None
  }

  /* Merging the policies of one claim. */

  // The checks made for some exact combinations of operators.
  function ConsistencyError(ops: set<Op>, rule: ClaimPolicy): bool
    requires ops == Operators(rule)
  {
    if ops == {SupersetOf, SubsetOf} then rule.supersetOf.value - rule.subsetOf.value != {}
    else if ops == {SupersetOf, SubsetOf, Default} then
      || rule.supersetOf.value - rule.subsetOf.value != {}
      || PySet(rule.default_.value) - rule.subsetOf.value != {}
      || rule.supersetOf.value - PySet(rule.default_.value) != {}
    else if ops == {SubsetOf, Default} then PySet(rule.default_.value) - rule.subsetOf.value != {}
    else if ops == {SupersetOf, Default} then rule.supersetOf.value - PySet(rule.default_.value) != {}
    else if ops == {OneOf, Default} then AsSet(rule.default_.value) - rule.oneOf.value != {}
    else false
  }

  // Every operator merged on its own.
  function MergeOperators(superior: ClaimPolicy, child: ClaimPolicy, lst: Lister): Result<ClaimPolicy, PolicyError> {
    var subset := DoIntersect(superior.subsetOf, child.subsetOf);
    var superset := DoIntersect(superior.supersetOf, child.supersetOf);
    var oneOf := DoIntersect(superior.oneOf, child.oneOf);
    var add := DoAdd(superior.add, child.add, lst);
    var value := DoSame(superior.value, child.value);
    var default_ := DoSame(superior.default_, child.default_);
    if subset.Err? || superset.Err? || oneOf.Err? || add.Err? || value.Err? || default_.Err? then Err(PolicyError)
    else Ok(ClaimPolicy(subset.value, superset.value, oneOf.value, add.value, value.value, default_.value,
                        DoEssential(superior.essential, child.essential)))
  }

  // combine_claim_policy.
  function CombineClaim(superior: ClaimPolicy, child: ClaimPolicy, lst: Lister): Result<ClaimPolicy, PolicyError> {
    if superior.value.Some? then
      if child == NO_POLICY then Ok(superior)
      else if child.essential.Some? then
        if child == NO_POLICY.(essential := child.essential)
        then Ok(NO_POLICY.(value := superior.value, essential := child.essential))
        else Err(PolicyError)
      else if child.value.Some? then
        if child.value == superior.value then Ok(superior) else Err(PolicyError)
      else Err(PolicyError)
    else if superior.essential.Some? && superior.essential.value && child.essential == Some(false) then Err(PolicyError)
    else if (superior.oneOf.Some? || child.oneOf.Some?)
            && (superior.subsetOf.Some? || child.subsetOf.Some? || superior.supersetOf.Some? || child.supersetOf.Some?)
    then Err(PolicyError)
    else
      match MergeOperators(superior, child, lst)
      case Err(e) => Err(e)
      case Ok(rule) => if ConsistencyError(Operators(rule), rule) then Err(PolicyError) else Ok(rule)
  }

  // One turn of the loop that builds the rule.
  function MergeOne(rule: ClaimPolicy, op: Op, superior: ClaimPolicy, child: ClaimPolicy, lst: Lister)
    : Result<ClaimPolicy, PolicyError>
  {
    match op
    case SubsetOf =>
      var r := DoIntersect(superior.subsetOf, child.subsetOf);
      if r.Err? then Err(r.error) else Ok(rule.(subsetOf := r.value))
    case SupersetOf =>
      var r := DoIntersect(superior.supersetOf, child.supersetOf);
      if r.Err? then Err(r.error) else Ok(rule.(supersetOf := r.value))
    case OneOf =>
      var r := DoIntersect(superior.oneOf, child.oneOf);
      if r.Err? then Err(r.error) else Ok(rule.(oneOf := r.value))
    case Add =>
      var r := DoAdd(superior.add, child.add, lst);
      if r.Err? then Err(r.error) else Ok(rule.(add := r.value))
    case Value =>
      var r := DoSame(superior.value, child.value);
      if r.Err? then Err(r.error) else Ok(rule.(value := r.value))
    case Default =>
      var r := DoSame(superior.default_, child.default_);
      if r.Err? then Err(r.error) else Ok(rule.(default_ := r.value))
    case Essential => Ok(rule.(essential := DoEssential(superior.essential, child.essential)))
  }

  function Keep<T>(done: set<Op>, op: Op, x: Option<T>): Option<T> {
    if op in done then x else None
  }

  // The rule after the operators in done.
  function Partial(rule: ClaimPolicy, done: set<Op>): ClaimPolicy {
    ClaimPolicy(Keep(done, SubsetOf, rule.subsetOf), Keep(done, SupersetOf, rule.supersetOf),
                Keep(done, OneOf, rule.oneOf), Keep(done, Add, rule.add), Keep(done, Value, rule.value),
                Keep(done, Default, rule.default_), Keep(done, Essential, rule.essential))
  }

  lemma MergeTurn(done: set<Op>, op: Op, superior: ClaimPolicy, child: ClaimPolicy, lst: Lister)
    ensures var merged := MergeOperators(superior, child, lst);
            merged.Ok? ==> MergeOne(Partial(merged.value, done), op, superior, child, lst) ==
                           Ok(Partial(merged.value, done + {op}))
  {
  }

  lemma MergedOperators(superior: ClaimPolicy, child: ClaimPolicy, lst: Lister)
    requires MergeOperators(superior, child, lst).Ok?
    ensures Operators(MergeOperators(superior, child, lst).value) == Operators(superior) + Operators(child)
  {
    var rule := MergeOperators(superior, child, lst).value;
    forall op ensures Has(rule, op) <==> Has(superior, op) || Has(child, op) {
    }
  }

  lemma PartialAll(rule: ClaimPolicy)
    ensures Partial(rule, Operators(rule)) == rule
  {
    assert Has(rule, SubsetOf) == rule.subsetOf.Some? && Has(rule, SupersetOf) == rule.supersetOf.Some?;
    assert Has(rule, OneOf) == rule.oneOf.Some? && Has(rule, Add) == rule.add.Some?;
    assert Has(rule, Value) == rule.value.Some? && Has(rule, Default) == rule.default_.Some?;
    assert Has(rule, Essential) == rule.essential.Some?;
  }

  // combine_claim_policy, with the loop over the operators in any order.
  method CombineClaimPolicy(superior: ClaimPolicy, child: ClaimPolicy, lst: Lister)
    returns (r: Result<ClaimPolicy, PolicyError>)
    ensures r == CombineClaim(superior, child, lst)
  {
    var superiorSet, childSet := Operators(superior), Operators(child);
    if Value in superiorSet {
      NoOperators(child);
      if childSet != {} {
        if Essential in childSet {
          OnlyEssential(child);
          if childSet == {Essential} {
            return Ok(NO_POLICY.(value := superior.value, essential := child.essential));
          }
          return Err(PolicyError);
        } else if Value in childSet {
          if child.value != superior.value {
            return Err(PolicyError);
          }
          return Ok(superior);
        } else {
          return Err(PolicyError);
        }
      }
      return Ok(superior);
    }
    if Essential in superiorSet && Essential in childSet {
      if superior.essential != child.essential && child.essential == Some(false) {
        assert superior.essential.value;
        return Err(PolicyError);
      }
    }
    var combPolicy := superiorSet + childSet;
    if OneOf in combPolicy {
      if SubsetOf in combPolicy || SupersetOf in combPolicy {
        return Err(PolicyError);
      }
    }
    r := MergeLoop(superior, child, combPolicy, lst);
    if r.Ok? {
      MergedOperators(superior, child, lst);
      if ConsistencyError(combPolicy, r.value) {
        return Err(PolicyError);
      }
    }
  }

  // for policy in comb_policy: rule[policy] = DO_POLICY[policy](superior, child, policy)
  method MergeLoop(superior: ClaimPolicy, child: ClaimPolicy, combPolicy: set<Op>, lst: Lister)
    returns (r: Result<ClaimPolicy, PolicyError>)
    requires combPolicy == Operators(superior) + Operators(child)
    ensures r == MergeOperators(superior, child, lst)
  {
    var rule := NO_POLICY;
    ghost var merged := MergeOperators(superior, child, lst);
    var todo := combPolicy;
    ghost var done: set<Op> := {};
    while todo != {}
      invariant done + todo == combPolicy
      invariant merged.Ok? ==> rule == Partial(merged.value, done)
      invariant forall op :: op in done ==> MergeOne(NO_POLICY, op, superior, child, lst).Ok?
      decreases todo
    {
      var op :| op in todo;
      todo := todo - {op};
      var next := MergeOne(rule, op, superior, child, lst);
      if next.Err? {
        MergeFails(rule, op, superior, child, lst);
        return Err(PolicyError);
      }
      MergeTurn(done, op, superior, child, lst);
      rule := next.value;
      done := done + {op};
    }
    AllMerged(superior, child, lst);
    MergedOperators(superior, child, lst);
    PartialAll(merged.value);
    return Ok(rule);
  }

  lemma MergeFails(rule: ClaimPolicy, op: Op, superior: ClaimPolicy, child: ClaimPolicy, lst: Lister)
    requires MergeOne(rule, op, superior, child, lst).Err?
    ensures MergeOperators(superior, child, lst) == Err(PolicyError)
  {
  }

  lemma NoOperators(p: ClaimPolicy)
    ensures Operators(p) == {} <==> p == NO_POLICY
  {
    assert p == Partial(p, Operators(p)) by {
      PartialAll(p);
    }
  }

  lemma OnlyEssential(p: ClaimPolicy)
    requires p.essential.Some?
    ensures Operators(p) == {Essential} <==> p == NO_POLICY.(essential := p.essential)
  {
    assert p == Partial(p, Operators(p)) by {
      PartialAll(p);
    }
    if p == NO_POLICY.(essential := p.essential) {
      forall op ensures op in Operators(p) <==> op == Essential {
      }
    }
  }

  // If every operator present merges, so does the policy.
  lemma AllMerged(superior: ClaimPolicy, child: ClaimPolicy, lst: Lister)
    requires forall op :: op in Operators(superior) + Operators(child) ==> MergeOne(NO_POLICY, op, superior, child, lst).Ok?
    ensures MergeOperators(superior, child, lst).Ok?
  {
    forall op ensures MergeOne(NO_POLICY, op, superior, child, lst).Ok? {
      if !Has(superior, op) && !Has(child, op) {
        assert MergeOne(NO_POLICY, op, superior, child, lst).Ok?;
      } else {
        assert op in Operators(superior) + Operators(child);
      }
    }
    assert MergeOne(NO_POLICY, SubsetOf, superior, child, lst).Ok? && MergeOne(NO_POLICY, SupersetOf, superior, child, lst).Ok?;
    assert MergeOne(NO_POLICY, OneOf, superior, child, lst).Ok? && MergeOne(NO_POLICY, Add, superior, child, lst).Ok?;
    assert MergeOne(NO_POLICY, Value, superior, child, lst).Ok? && MergeOne(NO_POLICY, Default, superior, child, lst).Ok?;
  }
}
