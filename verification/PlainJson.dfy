/** JSON that hides nothing: every party reads it as it stands. */
module PlainJson {
  import opened JsonData
  import opened Wrappers
  import opened Unpacking
  import opened UnpackingTheorems
  import opened Selection
  import opened IssuedFacts
  import opened Presentation

  // No name that a verifier takes for its own, and no element that looks like a hidden one.
  predicate Plain(j: Json) {
    match j
    case JAtom(_) => true
    case JArr(items) => forall i :: 0 <= i < |items| ==> !IsElementLeaf(items[i]) && Plain(items[i])
    case JObj(ms) => forall i :: 0 <= i < |ms| ==> !IsSkipped(ms[i].name) && Plain(ms[i].value)
  }

  // The same data, with the order of members forgotten.
  function ToValue(j: Json): Value
    decreases j, 0
  {
    match j
    case JAtom(a) => VAtom(a)
    case JArr(items) => VArr(ItemsToValues(items))
    case JObj(ms) => VObj(MembersToValues(ms))
  }

  function ItemsToValues(items: seq<Json>): seq<Value>
    decreases items, 0
  {
    if items == [] then [] else [ToValue(items[0])] + ItemsToValues(items[1..])
  }

  function MembersToValues(ms: seq<Member>): map<string, Value>
    decreases ms, 0
  {
    if ms == [] then map[] else map[ms[0].name := ToValue(ms[0].value)] + MembersToValues(ms[1..])
  }

  // The request has a fitting shape at every place.
  predicate FitsJson(j: Json, r: Request)
    decreases j, 0
  {
    match j
    case JAtom(_) => true
    case JArr(items) => r.RNone? || (FitsList(r) && FitsItems(items, r, 0))
    case JObj(ms) => r.RNone? || (FitsDict(r) && FitsMembers(ms, r))
  }

  predicate FitsItems(items: seq<Json>, r: Request, i: nat)
    decreases items, 0
  {
    items == [] || (FitsJson(items[0], At(r, i)) && FitsItems(items[1..], r, i + 1))
  }

  predicate FitsMembers(ms: seq<Member>, r: Request)
    decreases ms, 0
  {
    ms == [] || (FitsJson(ms[0].value, Get(r, ms[0].name)) && FitsMembers(ms[1..], r))
  }

  /* Reading it needs no disclosure. */

  lemma PlainObject(ms: seq<Member>)
    requires Plain(JObj(ms))
    ensures DigestsOf(ms) == Some([])
  {
    LookupMissing(ms, SD_DIGESTS_KEY);
  }

  lemma {:induction false} PlainExpands(j: Json, m: Mapping)
    requires Plain(j) && Honest(m)
    ensures Expand(j, m) == ToValue(j)
    decreases j, 0
  {
    match j
    case JAtom(_) =>
    case JArr(items) => PlainItemsExpand(items, m);
    case JObj(ms) =>
      PlainObject(ms);
      PlainMembersExpand(ms, m);
      assert MembersToValues(ms) + map[] == MembersToValues(ms);
  }

  lemma {:induction false} PlainItemsExpand(items: seq<Json>, m: Mapping)
    requires Plain(JArr(items)) && Honest(m)
    ensures ExpandItems(items, m) == ItemsToValues(items)
    decreases items, 0
  {
    if items == [] {
    } else {
      PlainExpands(items[0], m);
      PlainItemsExpand(items[1..], m);
    }
  }

  lemma {:induction false} PlainMembersExpand(ms: seq<Member>, m: Mapping)
    requires Plain(JObj(ms)) && Honest(m)
    ensures ExpandMembers(ms, m) == MembersToValues(ms)
    decreases ms, 0
  {
    if ms == [] {
    } else {
      PlainExpands(ms[0].value, m);
      PlainMembersExpand(ms[1..], m);
    }
  }

  lemma {:induction false} PlainVisits(j: Json, m: Mapping)
    requires Plain(j) && Honest(m)
    ensures Visited(j, m) == [] && Sound(j, m)
    decreases j, 0
  {
    match j
    case JAtom(_) =>
    case JArr(items) => PlainItemsVisit(items, m);
    case JObj(ms) =>
      PlainObject(ms);
      PlainMembersVisit(ms, m);
      SoundObject(ms, [], m);
  }

  lemma {:induction false} PlainItemsVisit(items: seq<Json>, m: Mapping)
    requires Plain(JArr(items)) && Honest(m)
    ensures VisitedItems(items, m) == [] && AllSoundItems(items, m)
    decreases items, 0
  {
    if items == [] {
    } else {
      PlainVisits(items[0], m);
      PlainItemsVisit(items[1..], m);
      AllSoundItemsCons(items, m);
    }
  }

  lemma {:induction false} PlainMembersVisit(ms: seq<Member>, m: Mapping)
    requires Plain(JObj(ms)) && Honest(m)
    ensures VisitedMembers(ms, m) == [] && AllSoundMembers(ms, m)
    decreases ms, 0
  {
    if ms == [] {
    } else {
      PlainVisits(ms[0].value, m);
      PlainMembersVisit(ms[1..], m);
      AllSoundMembersCons(ms, m);
    }
  }

  /* Walking it selects nothing, and returns iff the request fits. */

  lemma {:induction false} PlainSelects(j: Json, r: Request, m: Mapping)
    requires Plain(j) && Honest(m)
    ensures Select(j, r, m).Ok? <==> FitsJson(j, r)
    ensures Select(j, r, m).Ok? ==> Select(j, r, m) == Ok([])
    decreases j, 0
  {
    match j
    case JAtom(_) =>
    case JArr(items) => PlainItemsSelect(items, r, 0, m);
    case JObj(ms) => PlainMembersSelect(ms, r, m);
  }

  lemma {:induction false} PlainItemsSelect(items: seq<Json>, r: Request, i: nat, m: Mapping)
    requires Plain(JArr(items)) && Honest(m)
    ensures SelectItems(items, r, i, m).Ok? <==> FitsItems(items, r, i)
    ensures SelectItems(items, r, i, m).Ok? ==> SelectItems(items, r, i, m) == Ok([])
    decreases items, 0
  {
    if items == [] {
    } else {
      PlainSelects(items[0], At(r, i), m);
      PlainItemsSelect(items[1..], r, i + 1, m);
      if FitsItems(items, r, i) {
        ThenNothing(SelectItem(items[0], At(r, i), m), SelectItems(items[1..], r, i + 1, m));
      }
    }
  }

  lemma {:induction false} PlainMembersSelect(ms: seq<Member>, r: Request, m: Mapping)
    requires Plain(JObj(ms)) && Honest(m)
    ensures SelectMembers(ms, r, m).Ok? <==> FitsMembers(ms, r)
    ensures SelectMembers(ms, r, m).Ok? ==> SelectMembers(ms, r, m) == Ok([])
    decreases ms, 0
  {
    if ms == [] {
    } else {
      PlainSelects(ms[0].value, Get(r, ms[0].name), m);
      PlainMembersSelect(ms[1..], r, m);
      if FitsMembers(ms, r) {
        ThenNothing(SelectMember(ms[0], r, m), SelectMembers(ms[1..], r, m));
      }
    }
  }
}
