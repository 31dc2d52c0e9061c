/** Requests, and the disclosures a holder selects for them. */
module Selection {
  import opened JsonData
  import opened Wrappers

  // The claims_to_disclose argument, any JSON-like Python value.
  datatype Request =
    | RNone
    | RBool(b: bool)
    | RNum(n: real)
    | RText(s: string)
    | RList(items: seq<Request>)
    | RDict(entries: map<string, Request>)

  // Truth value of a Python object.
  predicate Truthy(r: Request) {
    match r
    case RNone => false
    case RBool(b) => b
    case RNum(n) => n != 0.0
    case RText(s) => s != ""
    case RList(items) => items != []
    case RDict(entries) => entries != map[]
  }

  // "r in (False, None)": zero equals False.
  predicate Refuses(r: Request) {
    r == RNone || r == RBool(false) || r == RNum(0.0)
  }

  // The request for the element at a position: None past the end, and below True.
  function At(r: Request, i: nat): Request {
    if r.RList? && i < |r.items| then r.items[i] else RNone
  }

  // The request for a member: None when absent, and below True.
  function Get(r: Request, name: string): Request {
    if r.RDict? && name in r.entries then r.entries[name] else RNone
  }

  // The request fits a list, respectively a dict: None, True, or the matching container.
  predicate FitsList(r: Request) {
    r == RNone || r == RBool(true) || r.RList?
  }

  predicate FitsDict(r: Request) {
    r == RNone || r == RBool(true) || r.RDict?
  }

  type Selected = Result<seq<Disclosure>, Error>

  function Then(a: Selected, b: Selected): Selected {
    match a
    case Err(e) => Err(e)
    case Ok(s) =>
      match b
      case Err(e) => Err(e)
      case Ok(t) => Ok(s + t)
  }

  // The disclosures appended by walking j with request r. With None nothing is walked.
  function Select(j: Json, r: Request, m: Mapping): Selected
    requires Honest(m)
    decreases j, 0
  {
    match j
    case JAtom(_) => Ok([])
    case JArr(items) =>
      if r.RNone? then Ok([]) else if !FitsList(r) then Err(RequestShape) else SelectItems(items, r, 0, m)
    case JObj(ms) =>
      if r.RNone? then Ok([]) else if !FitsDict(r) then Err(RequestShape) else SelectMembers(ms, r, m)
  }

  // The elements from position i on.
  function SelectItems(items: seq<Json>, r: Request, i: nat, m: Mapping): Selected
    requires Honest(m)
    decreases items, 0
  {
    if items == [] then Ok([])
    else Then(SelectItem(items[0], At(r, i), m), SelectItems(items[1..], r, i + 1, m))
  }

  function SelectItem(j: Json, r: Request, m: Mapping): Selected
    requires Honest(m)
    decreases j, 1
  {
    if !IsElementLeaf(j) then Select(j, r, m)
    else
      var t := LeafDigest(j);
      if t !in m then Ok([])
      else if !m[t].ElementDisclosure? then Err(WrongArity)
      else if Refuses(r) then Ok([])
      else Then(Ok([m[t]]), Select(m[t].value, r, m))
  }

  function SelectMembers(ms: seq<Member>, r: Request, m: Mapping): Selected
    requires Honest(m)
    decreases ms, 0
  {
    if ms == [] then Ok([])
    else Then(SelectMember(ms[0], r, m), SelectMembers(ms[1..], r, m))
  }

  function SelectMember(mem: Member, r: Request, m: Mapping): Selected
    requires Honest(m)
    decreases mem, 1
  {
    if mem.name == SD_DIGESTS_KEY then
      if mem.value.JArr? then SelectDigests(mem.value.items, r, m) else Err(NotADigestList)
    else Select(mem.value, Get(r, mem.name), m)
  }

  function SelectDigests(entries: seq<Json>, r: Request, m: Mapping): Selected
    requires Honest(m)
    decreases entries, 0
  {
    if entries == [] then Ok([])
    else Then(SelectDigest(entries[0], r, m), SelectDigests(entries[1..], r, m))
  }

  // The value is walked even when its own disclosure is not selected.
  function SelectDigest(e: Json, r: Request, m: Mapping): Selected
    requires Honest(m)
    decreases e, 1
  {
    if !e.JAtom? then Err(NotADigestList)
    else if !IsKnown(e, m) then Ok([])
    else
      var d := Known(e, m);
      if !d.MemberDisclosure? then Err(WrongArity)
      else Then(Ok(if Truthy(Get(r, d.key)) then [d] else []), Select(d.value, Get(r, d.key), m))
  }
}
