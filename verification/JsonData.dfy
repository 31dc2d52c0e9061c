/**
 Decoded JSON as the issuer, the holder and the verifier see it.

 The hash is symbolic: a digest is a free constructor over the disclosure it was computed
 from, so two disclosures share a digest only if they are equal, and a disclosure can never
 contain its own digest.
 */
module JsonData {
  import opened Wrappers

  const SD_DIGESTS_KEY := "_sd"
  const DIGEST_ALG_KEY := "_sd_alg"
  const SD_LIST_PREFIX := "..."
  const HASH_ALG_NAME := "sha-256"

  // A JSON string: ordinary text, the digest of a disclosure, or a decoy, which is the
  // digest of a bare salt.
  datatype Text = Lit(s: string) | DigestOf(disclosure: Disclosure) | DecoyDigest(salt: nat)

  // A number is mantissa * 10^exponent, as JSON writes it.
  datatype Atom = Null | Bool(b: bool) | Num(mantissa: int, exponent: int) | Str(t: Text)

  // A decoded dict keeps its insertion order.
  datatype Member = Member(name: string, value: Json)

  datatype Json = JAtom(a: Atom) | JArr(items: seq<Json>) | JObj(members: seq<Member>)

  // [salt, value], [salt, key, value], or a decoded list of any other length.
  datatype Disclosure =
    | ElementDisclosure(salt: nat, value: Json)
    | MemberDisclosure(salt: nat, key: string, value: Json)
    | Malformed(raw: nat)

  // The verifier's output. Python compares dicts without regard to order, hence the map.
  datatype Value = VAtom(a: Atom) | VArr(items: seq<Value>) | VObj(members: map<string, Value>)

  datatype Error =
    | DuplicateDisclosure
    | DuplicateDigest
    | DuplicateKey
    | WrongArity
    | NotADigestList
    | UnsupportedHash
    | MisplacedSDObj
    | ReservedClaim
    | RequestShape

  // A list, a digest or a disclosure lies inside j: recursion into it comes to an end.
  ghost predicate ItemsInside(j: Json, items: seq<Json>) {
    j decreases to items
  }

  ghost predicate TextInside(j: Json, t: Text) {
    j decreases to t
  }

  ghost predicate DisclosureInside(j: Json, d: Disclosure) {
    j decreases to d
  }

  // The value of a dict under a key, as dict.get reads it.
  function Lookup(ms: seq<Member>, name: string): (r: Option<Json>)
    ensures r.Some? ==> exists i :: 0 <= i < |ms| && ms[i] == Member(name, r.value)
  {
    if ms == [] then None
    else if ms[0].name == name then
      assert ms[0] == Member(name, ms[0].value);
      Some(ms[0].value)
    else
      var r := Lookup(ms[1..], name);
      assert forall i :: 0 <= i < |ms[1..]| ==> ms[1..][i] == ms[i + 1];
      r
  }

  // What iterating over dict.get("_sd", []) visits; None when the entry is not a list.
  function DigestsOf(ms: seq<Member>): (r: Option<seq<Json>>)
    ensures r.Some? ==> ItemsInside(JObj(ms), r.value)
  {
    match Lookup(ms, SD_DIGESTS_KEY)
    case None =>
      assert ms[|ms|..] == [];
      Some([])
    case Some(JArr(entries)) => Some(entries)
    case Some(_) => None
  }

  // A list element of the form {"...": <string>} stands for a hidden element.
  predicate IsElementLeaf(j: Json) {
    && j.JObj?
    && |j.members| == 1
    && j.members[0].name == SD_LIST_PREFIX
    && j.members[0].value.JAtom?
    && j.members[0].value.a.Str?
  }

  function LeafDigest(j: Json): (t: Text)
    requires IsElementLeaf(j)
    ensures TextInside(j, t)
  {
    j.members[0].value.a.t
  }

  function ElementLeaf(t: Text): Json {
    JObj([Member(SD_LIST_PREFIX, JAtom(Str(t)))])
  }

  function DigestAtom(t: Text): Json {
    JAtom(Str(t))
  }

  // The digest -> decoded disclosure dict of a holder or verifier.
  type Mapping = map<Text, Disclosure>

  // Every entry is stored under its own digest, which is how the dict is built.
  predicate Honest(m: Mapping) {
    forall t :: t in m ==> t == DigestOf(m[t])
  }

  predicate IsSkipped(name: string) {
    name == SD_DIGESTS_KEY || name == DIGEST_ALG_KEY
  }

  // The entry of an _sd list is a digest that the mapping knows.
  predicate IsKnown(e: Json, m: Mapping) {
    e.JAtom? && e.a.Str? && e.a.t in m
  }

  function Known(e: Json, m: Mapping): (d: Disclosure)
    requires Honest(m) && IsKnown(e, m)
    ensures DisclosureInside(e, d)
    ensures e == DigestAtom(DigestOf(d)) && m[DigestOf(d)] == d
  {
    m[e.a.t]
  }
}
