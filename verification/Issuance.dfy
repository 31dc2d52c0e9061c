/** User claims, and the payload and disclosures an issuer makes of them. */
module Issuance {
  import opened JsonData
  import opened Wrappers

  // A dict key, plain or marked with SDObj.
  datatype Key = Name(name: string) | SDKey(name: string)

  datatype ClaimMember = ClaimMember(key: Key, value: Claim)

  // SDObj marks a list element as selectively disclosable. Anywhere else in value position it is an error.
  datatype Claim = Leaf(a: Atom) | List(items: seq<Claim>) | Dict(members: seq<ClaimMember>) | SDObj(value: Claim)

  // What the issuer does not determine: the order that sorting by digest produces, how many decoys
  // are drawn for an object when the salt counter stands at a given value, and what sorting any
  // other list produces; None when its elements cannot be compared.
  datatype Env = Env(order: seq<Text> -> seq<Text>, decoyCount: nat -> nat,
                     sortValues: seq<Json> -> Option<seq<Json>>)

  const DECOY_MIN_ELEMENTS := 2
  const DECOY_MAX_ELEMENTS := 5

  // Sorting permutes; a drawn count is within the configured range, or zero without decoys.
  ghost predicate ValidEnv(env: Env) {
    && (forall s :: multiset(env.order(s)) == multiset(s))
    && ((forall n :: env.decoyCount(n) == 0)
        || (forall n :: DECOY_MIN_ELEMENTS <= env.decoyCount(n) <= DECOY_MAX_ELEMENTS))
  }

  // Sorting any list permutes it, and a list of digests is sorted in their order.
  ghost predicate SortsDigests(env: Env) {
    && ValidEnv(env)
    && (forall xs :: env.sortValues(xs).Some? ==> multiset(env.sortValues(xs).value) == multiset(xs))
    && (forall ts {:trigger env.sortValues(DigestList(ts))} :: env.sortValues(DigestList(ts)) == Some(DigestList(env.order(ts))))
  }

  /* The transformation. Salts are numbered in the order in which they are generated. */

  datatype Issued<+T> = Issued(out: T, disclosures: seq<Disclosure>, decoys: seq<Text>, next: nat)

  datatype Fields = Fields(plain: seq<Member>, digests: seq<Text>)

  function Issue(c: Claim, env: Env, n: nat): Issued<Json>
    decreases c, 0
  {
    match c
    case Leaf(a) => Issued(JAtom(a), [], [], n)
    case List(items) =>
      var i := IssueItems(items, env, n);
      Issued(JArr(i.out), i.disclosures, i.decoys, i.next)
    case Dict(ms) =>
      var i := IssueMembers(ms, env, n);
      var count := env.decoyCount(i.next);
      var decoys := Decoys(i.next, count);
      Issued(JObj(Assemble(i.out.plain, env.order(i.out.digests + decoys))), i.disclosures, i.decoys + decoys,
             i.next + count)
    case SDObj(_) => Issued(JAtom(Null), [], [], n)
  }

  function IssueItem(c: Claim, env: Env, n: nat): Issued<Json>
    decreases c, 1
  {
    if !c.SDObj? then Issue(c, env, n)
    else
      var i := Issue(c.value, env, n);
      var d := ElementDisclosure(i.next, i.out);
      Issued(ElementLeaf(DigestOf(d)), i.disclosures + [d], i.decoys, i.next + 1)
  }

  function IssueItems(items: seq<Claim>, env: Env, n: nat): Issued<seq<Json>>
    decreases items, 0
  {
    if items == [] then Issued([], [], [], n)
    else
      var h := IssueItem(items[0], env, n);
      ThenItems(Issued([h.out], h.disclosures, h.decoys, h.next), IssueItems(items[1..], env, h.next))
  }

  function IssueMember(m: ClaimMember, env: Env, n: nat): Issued<Fields>
    decreases m, 0
  {
    var i := Issue(m.value, env, n);
    match m.key
    case Name(name) => Issued(Fields([Member(name, i.out)], []), i.disclosures, i.decoys, i.next)
    case SDKey(name) =>
      var d := MemberDisclosure(i.next, name, i.out);
      Issued(Fields([], [DigestOf(d)]), i.disclosures + [d], i.decoys, i.next + 1)
  }

  function IssueMembers(ms: seq<ClaimMember>, env: Env, n: nat): Issued<Fields>
    decreases ms, 0
  {
    if ms == [] then Issued(Fields([], []), [], [], n)
    else
      var h := IssueMember(ms[0], env, n);
      ThenFields(h, IssueMembers(ms[1..], env, h.next))
  }

  // What two consecutive stretches issue together.
  function ThenItems(a: Issued<seq<Json>>, b: Issued<seq<Json>>): Issued<seq<Json>> {
    Issued(a.out + b.out, a.disclosures + b.disclosures, a.decoys + b.decoys, b.next)
  }

  function ThenFields(a: Issued<Fields>, b: Issued<Fields>): Issued<Fields> {
    Issued(Fields(a.out.plain + b.out.plain, a.out.digests + b.out.digests), a.disclosures + b.disclosures,
           a.decoys + b.decoys, b.next)
  }

  function Decoys(n: nat, count: nat): seq<Text> {
    seq(count, i requires 0 <= i < count => DecoyDigest(n + i))
  }

  function DigestList(ts: seq<Text>): seq<Json> {
    seq(|ts|, i requires 0 <= i < |ts| => DigestAtom(ts[i]))
  }

  // The _sd member comes first, and is deleted when it is empty.
  function Assemble(plain: seq<Member>, digests: seq<Text>): seq<Member> {
    if digests == [] then plain else [Member(SD_DIGESTS_KEY, JArr(DigestList(digests)))] + plain
  }

  /* Which claims the issuer rejects. */

  // SDObj is used for keys and list elements only.
  predicate NoStray(c: Claim)
    decreases c, 0
  {
    match c
    case Leaf(_) => true
    case List(items) => forall i :: 0 <= i < |items| ==> NoStrayItem(items[i])
    case Dict(ms) => forall i :: 0 <= i < |ms| ==> NoStray(ms[i].value)
    case SDObj(_) => false
  }

  predicate NoStrayItem(c: Claim)
    decreases c, 1
  {
    if c.SDObj? then NoStray(c.value) else NoStray(c)
  }

  // The check made before issuing. It does not look below an SDObj, and an SDObj key is never
  // equal to the string "_sd".
  predicate PassesSdCheck(c: Claim) {
    match c
    case Leaf(_) => true
    case List(items) => forall i :: 0 <= i < |items| ==> PassesSdCheck(items[i])
    case Dict(ms) => forall i :: 0 <= i < |ms| ==> ms[i].key != Name(SD_DIGESTS_KEY) && PassesSdCheck(ms[i].value)
    case SDObj(_) => true
  }

  /* Claims whose issued form can be read back. */

  // A plain key that the verifier takes for its own.
  predicate IsReserved(k: Key) {
    k.Name? && IsSkipped(k.name)
  }

  // A plain list element that cannot be told from a hidden one.
  predicate IsFakeLeaf(c: Claim) {
    && c.Dict?
    && |c.members| == 1
    && c.members[0].key == Name(SD_LIST_PREFIX)
    && c.members[0].value.Leaf?
    && c.members[0].value.a.Str?
  }

  ghost predicate HasDecoys(env: Env) {
    exists n :: env.decoyCount(n) > 0
  }

  // No such key, and no such element, unless decoys turn it into an object with an _sd member.
  predicate NoReserved(c: Claim, decoys: bool) {
    match c
    case Leaf(_) => true
    case List(items) => forall i :: 0 <= i < |items| ==> (IsFakeLeaf(items[i]) ==> decoys) && NoReserved(items[i], decoys)
    case Dict(ms) => forall i :: 0 <= i < |ms| ==> !IsReserved(ms[i].key) && NoReserved(ms[i].value, decoys)
    case SDObj(v) => NoReserved(v, decoys)
  }

  // Keys of a dict are distinct.
  predicate AreDicts(c: Claim) {
    match c
    case Leaf(_) => true
    case List(items) => forall i :: 0 <= i < |items| ==> AreDicts(items[i])
    case Dict(ms) =>
      && (forall i, j :: 0 <= i < j < |ms| ==> ms[i].key != ms[j].key)
      && (forall i :: 0 <= i < |ms| ==> AreDicts(ms[i].value))
    case SDObj(v) => AreDicts(v)
  }

  // No plain key of a dict has the name of one of its SDObj keys.
  predicate NoClash(c: Claim) {
    match c
    case Leaf(_) => true
    case List(items) => forall i :: 0 <= i < |items| ==> NoClash(items[i])
    case Dict(ms) =>
      && (forall i, j :: 0 <= i < j < |ms| ==> ms[i].key == ms[j].key || ms[i].key.name != ms[j].key.name)
      && (forall i :: 0 <= i < |ms| ==> NoClash(ms[i].value))
    case SDObj(v) => NoClash(v)
  }

  /* What the claims say when everything is disclosed. */

  function RemoveSdObjWrappers(c: Claim): Value
    decreases c, 0
  {
    match c
    case Leaf(a) => VAtom(a)
    case List(items) => VArr(RemoveFromItems(items))
    case Dict(ms) => VObj(RemoveFromMembers(ms))
    case SDObj(v) => RemoveSdObjWrappers(v)
  }

  function RemoveFromItems(items: seq<Claim>): seq<Value>
    decreases items, 0
  {
    if items == [] then [] else [RemoveSdObjWrappers(items[0])] + RemoveFromItems(items[1..])
  }

  function RemoveFromMembers(ms: seq<ClaimMember>): map<string, Value>
    decreases ms, 0
  {
    if ms == [] then map[]
    else
      var h := ms[0];
      assert h.value < Dict(ms);
      map[h.key.name := RemoveSdObjWrappers(h.value)] + RemoveFromMembers(ms[1..])
  }

  // No plain key "_sd" anywhere, also below an SDObj.
  predicate NoPlainSd(c: Claim) {
    match c
    case Leaf(_) => true
    case List(items) => forall i :: 0 <= i < |items| ==> NoPlainSd(items[i])
    case Dict(ms) => forall i :: 0 <= i < |ms| ==> ms[i].key != Name(SD_DIGESTS_KEY) && NoPlainSd(ms[i].value)
    case SDObj(v) => NoPlainSd(v)
  }

  /* The payload of the issuer-signed JWT. */

  const CNF := "cnf"
  const JWK := "jwk"

  // A serialized public key.
  type Jwk = Json

  function CnfJson(k: Jwk): Json {
    JObj([Member(JWK, k)])
  }

  // dict[name] = value: in place when the key exists, at the end otherwise.
  function Put(ms: seq<Member>, name: string, value: Json): seq<Member> {
    if ms == [] then [Member(name, value)]
    else if ms[0].name == name then [Member(name, value)] + ms[1..]
    else [ms[0]] + Put(ms[1..], name, value)
  }

  lemma {:induction false} LookupPut(ms: seq<Member>, name: string, value: Json, other: string)
    ensures Lookup(Put(ms, name, value), other) == if other == name then Some(value) else Lookup(ms, other)
    decreases |ms|
  {
    if ms != [] && ms[0].name != name {
      LookupPut(ms[1..], name, value, other);
    }
  }

  function IssuePayload(claims: seq<ClaimMember>, holderKey: Option<Jwk>, env: Env, n: nat): Issued<Json> {
    var i := Issue(Dict(claims), env, n);
    Issued(JObj(Confirm(i.out.members, holderKey)), i.disclosures, i.decoys, i.next)
  }

  // The hash algorithm and the confirmation claim are written last.
  function Confirm(members: seq<Member>, holderKey: Option<Jwk>): seq<Member> {
    var ms := Put(members, DIGEST_ALG_KEY, JAtom(Str(Lit(HASH_ALG_NAME))));
    if holderKey.Some? then Put(ms, CNF, CnfJson(holderKey.value)) else ms
  }
}
