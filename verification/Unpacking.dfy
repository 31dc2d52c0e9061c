/**
 Expanding a payload with a set of disclosures, three ways.

 Unpack follows the code: it threads the list of digests already seen and raises.
 Expand, Visited and Sound split that into a value without state, the digests met on the
 way, and the conditions under which nothing is raised.
 */
module Unpacking {
  import opened JsonData
  import opened Sequences

  datatype Outcome<+T> = Raised(error: Error) | Returned(value: T, seen: seq<Atom>)

  /* The code's recursion. */

  function Unpack(j: Json, m: Mapping, seen: seq<Atom>): Outcome<Value>
    requires Honest(m)
    decreases j, 0
  {
    match j
    case JAtom(a) => Returned(VAtom(a), seen)
    case JArr(items) =>
      (match UnpackItems(items, m, [], seen)
       case Raised(e) => Raised(e)
       case Returned(out, s) => Returned(VArr(out), s))
    case JObj(ms) =>
      match UnpackMembers(ms, m, map[], seen)
      case Raised(e) => Raised(e)
      case Returned(pre, s) =>
        match DigestsOf(ms)
        case None => Raised(NotADigestList)
        case Some(entries) =>
          match UnpackDigests(entries, m, pre, s)
          case Raised(e) => Raised(e)
          case Returned(out, s') => Returned(VObj(out), s')
  }

  function UnpackItems(items: seq<Json>, m: Mapping, out: seq<Value>, seen: seq<Atom>): Outcome<seq<Value>>
    requires Honest(m)
    decreases items, 0
  {
    if items == [] then Returned(out, seen)
    else if IsElementLeaf(items[0]) then
      var t := LeafDigest(items[0]);
      if t !in m then UnpackItems(items[1..], m, out, seen)
      else if !m[t].ElementDisclosure? then Raised(WrongArity)
      else
        match Unpack(m[t].value, m, seen)
        case Raised(e) => Raised(e)
        case Returned(v, s) => UnpackItems(items[1..], m, out + [v], s)
    else
      match Unpack(items[0], m, seen)
      case Raised(e) => Raised(e)
      case Returned(v, s) => UnpackItems(items[1..], m, out + [v], s)
  }

  function UnpackMembers(ms: seq<Member>, m: Mapping, out: map<string, Value>, seen: seq<Atom>)
    : Outcome<map<string, Value>>
    requires Honest(m)
    decreases ms, 0
  {
    if ms == [] then Returned(out, seen)
    else if IsSkipped(ms[0].name) then UnpackMembers(ms[1..], m, out, seen)
    else
      match Unpack(ms[0].value, m, seen)
      case Raised(e) => Raised(e)
      case Returned(v, s) => UnpackMembers(ms[1..], m, out[ms[0].name := v], s)
  }

  function UnpackDigests(entries: seq<Json>, m: Mapping, out: map<string, Value>, seen: seq<Atom>)
    : Outcome<map<string, Value>>
    requires Honest(m)
    decreases entries, 0
  {
    if entries == [] then Returned(out, seen)
    else if !entries[0].JAtom? then Raised(NotADigestList)
    else if entries[0].a in seen then Raised(DuplicateDigest)
    else if !IsKnown(entries[0], m) then UnpackDigests(entries[1..], m, out, seen + [entries[0].a])
    else
      var d := Known(entries[0], m);
      if !d.MemberDisclosure? then Raised(WrongArity)
      else if d.key in out then Raised(DuplicateKey)
      else
        match Unpack(d.value, m, seen + [entries[0].a])
        case Raised(e) => Raised(e)
        case Returned(v, s) => UnpackDigests(entries[1..], m, out[d.key := v], s)
  }

  /* The value alone. */

  function Expand(j: Json, m: Mapping): Value
    requires Honest(m)
    decreases j, 0
  {
    match j
    case JAtom(a) => VAtom(a)
    case JArr(items) => VArr(ExpandItems(items, m))
    case JObj(ms) =>
      VObj(ExpandMembers(ms, m) + (if DigestsOf(ms).Some? then ExpandDigests(DigestsOf(ms).value, m) else map[]))
  }

  function ExpandItems(items: seq<Json>, m: Mapping): seq<Value>
    requires Honest(m)
    decreases items, 0
  {
    if items == [] then []
    else ExpandItem(items[0], m) + ExpandItems(items[1..], m)
  }

  // Nothing for a hidden element, one value otherwise.
  function ExpandItem(j: Json, m: Mapping): seq<Value>
    requires Honest(m)
    decreases j, 1
  {
    if !IsElementLeaf(j) then [Expand(j, m)]
    else
      var t := LeafDigest(j);
      if t in m && m[t].ElementDisclosure? then [Expand(m[t].value, m)] else []
  }

  function ExpandMembers(ms: seq<Member>, m: Mapping): map<string, Value>
    requires Honest(m)
    decreases ms, 0
  {
    if ms == [] then map[]
    else if IsSkipped(ms[0].name) then ExpandMembers(ms[1..], m)
    else map[ms[0].name := Expand(ms[0].value, m)] + ExpandMembers(ms[1..], m)
  }

  predicate Discloses(e: Json, m: Mapping)
    requires Honest(m)
  {
    IsKnown(e, m) && Known(e, m).MemberDisclosure?
  }

  function ExpandDigests(entries: seq<Json>, m: Mapping): map<string, Value>
    requires Honest(m)
    decreases entries, 0
  {
    if entries == [] then map[]
    else if !Discloses(entries[0], m) then ExpandDigests(entries[1..], m)
    else
      var d := Known(entries[0], m);
      map[d.key := Expand(d.value, m)] + ExpandDigests(entries[1..], m)
  }

  /* The _sd entries met anywhere in the expansion, in the order they are checked. */

  function Visited(j: Json, m: Mapping): seq<Atom>
    requires Honest(m)
    decreases j, 0
  {
    match j
    case JAtom(_) => []
    case JArr(items) => VisitedItems(items, m)
    case JObj(ms) =>
      VisitedMembers(ms, m) + (if DigestsOf(ms).Some? then VisitedDigests(DigestsOf(ms).value, m) else [])
  }

  function VisitedItems(items: seq<Json>, m: Mapping): seq<Atom>
    requires Honest(m)
    decreases items, 0
  {
    if items == [] then []
    else VisitedItem(items[0], m) + VisitedItems(items[1..], m)
  }

  function VisitedItem(j: Json, m: Mapping): seq<Atom>
    requires Honest(m)
    decreases j, 1
  {
    if !IsElementLeaf(j) then Visited(j, m)
    else
      var t := LeafDigest(j);
      if t in m && m[t].ElementDisclosure? then Visited(m[t].value, m) else []
  }

  function VisitedMembers(ms: seq<Member>, m: Mapping): seq<Atom>
    requires Honest(m)
    decreases ms, 0
  {
    if ms == [] then []
    else (if IsSkipped(ms[0].name) then [] else Visited(ms[0].value, m)) + VisitedMembers(ms[1..], m)
  }

  function VisitedDigests(entries: seq<Json>, m: Mapping): seq<Atom>
    requires Honest(m)
    decreases entries, 0
  {
    if entries == [] then []
    else VisitedDigest(entries[0], m) + VisitedDigests(entries[1..], m)
  }

  function VisitedDigest(e: Json, m: Mapping): seq<Atom>
    requires Honest(m)
    decreases e, 1
  {
    if !e.JAtom? then []
    else if Discloses(e, m) then [e.a] + Visited(Known(e, m).value, m)
    else [e.a]
  }

  /* What must hold, besides distinct digests, for nothing to be raised. */

  function PlainNames(ms: seq<Member>): set<string> {
    set i | 0 <= i < |ms| && !IsSkipped(ms[i].name) :: ms[i].name
  }

  function DisclosedNames(entries: seq<Json>, m: Mapping): seq<string>
    requires Honest(m)
  {
    if entries == [] then []
    else (if Discloses(entries[0], m) then [Known(entries[0], m).key] else []) + DisclosedNames(entries[1..], m)
  }

  ghost predicate Sound(j: Json, m: Mapping)
    requires Honest(m)
    decreases j, 0
  {
    match j
    case JAtom(_) => true
    case JArr(items) => forall i :: 0 <= i < |items| ==> SoundItem(items[i], m)
    case JObj(ms) =>
      && (forall i :: 0 <= i < |ms| && !IsSkipped(ms[i].name) ==> Sound(ms[i].value, m))
      && DigestsOf(ms).Some?
      && var entries := DigestsOf(ms).value;
         && (forall i :: 0 <= i < |entries| ==> SoundDigest(entries[i], m))
         && Fresh(PlainNames(ms), DisclosedNames(entries, m))
  }

  ghost predicate SoundItem(j: Json, m: Mapping)
    requires Honest(m)
    decreases j, 1
  {
    if !IsElementLeaf(j) then Sound(j, m)
    else
      var t := LeafDigest(j);
      t in m ==> m[t].ElementDisclosure? && Sound(m[t].value, m)
  }

  ghost predicate SoundDigest(e: Json, m: Mapping)
    requires Honest(m)
    decreases e, 1
  {
    e.JAtom? && (IsKnown(e, m) ==> Known(e, m).MemberDisclosure? && Sound(Known(e, m).value, m))
  }
}
