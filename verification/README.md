# Verified models of selective disclosure, metadata policy and status lists

This project models the hardest logic of the pyeudiw library in Dafny and proves what it is
for. `dafny verify dfyconfig.toml` checks everything.

## What is modelled

**SD-JWT.** The issuer turns a JSON tree with `SDObj` marks into a payload full of digests and a
list of disclosures (`Issuance`, `RawIssuance`, `Issuer`); the holder walks the payload along a nested request
and picks disclosures (`Selection`, `Holder`); the verifier expands digests back through a map,
with one list of digests seen so far that all recursive calls share (`Unpacking`, `Verifier`,
`SdJwt`). The objects and loops of the source are classes and loops here; each is proved equal to a
recursive specification (`Raw`, which is `Issue` on claims without a plain `_sd` key, `Select`,
`Unpack`), and the theorems are about those. The hash
is symbolic: a digest is a constructor applied to the decoded disclosure. That makes digests free
of collisions and acyclic, so the recursion through the map terminates, also for list elements,
whose digests the duplicate check does not track. Salts are numbers in the order in which they are
drawn.

The chain of results:

- unpacking is exact: it returns iff no name is overwritten and all `_sd` digests visited anywhere
  are distinct, and then returns a stateless expansion (`UnpackExact`);
- it depends only on the digests it meets (`UnpackLocal`), decoys inserted anywhere make no difference
  (`DecoysMakeNoDifference`), and presenting fewer disclosures is always accepted when more are, and
  shows less (`FewerDisclosures`);
- the round trip gives back the claims without their wrappers, iff no dict has a plain key with
  the name of one of its `SDObj` keys (`FullRoundTrip`, `PayloadRoundTrip`) and, for claims whose
  names do not clash, iff no dict has a plain `_sd_alg` key and no list a plain element that looks
  like a hidden one (`RoundTripExact`);
- the holder's walk returns iff the request fits the claims wherever it walks
  (`HolderAnswersExact`), what it selects hangs together (`SelectionIsAnchored`), and a verifier
  then sees exactly `View(claims, request)` (`SelectiveDisclosureEndToEnd`);
- the decisions are also stated in terms of the plain inputs: which claims the issuer refuses
  (`RefusedForSd`) and what an issued object looks like (`ObjectShape`), which payloads a verifier refuses
  (`VerifiedExact`), and which claims a request discloses, entry by entry (`ShownIffAskedFor`);
- the same holds for the strings that are exchanged (`ProtocolShowsView`), using that parsing
  inverts writing (`ParseExact`), that the regular expression accepts exactly the well-formed
  tokens (`FormatExact`), and that all parties hash the same string for key binding
  (`SameStringToHash`, `VerifiersCompared`). A holder that makes several presentations is a session of calls
  on one object (`HolderSession`), for which `SessionKeyBindingExact` says which of them a verifier accepts. What these theorems ask of the encoders, of an honest
  holder's signature and of the issuer's choices can be met: `CodecExample` has an example of each.

**OpenID Federation.** Merging the policies of one claim (`Policy`), folding a chain of statements
of any length and applying the result to metadata in place (`PolicyChain`), with the exact
condition for a successful gathering and what it gathers (`PolicyGathering`), what every statement
may rely on (`PolicyTheorems`), merging as applying in turn (`PolicyApplication`), idempotence
(`PolicyIdempotence`), and what all of it comes to operator by operator (`PolicyRules`). The walk over a static trust chain with its running expiry is in `TrustChain`.

**Smaller cores.** Status lists, from the records to what a verifier reads (`Bits`, `StatusList`,
`StatusPacking`, `StatusEndpoint`), the HTTP cache with time
buckets as a state machine of overlapping calls (`TtlCache`), and claim extraction on a real heap,
where the result shares dictionaries with its input (`ClaimExtraction`, `AttributeMapper`).

## Where the code differs from what one would expect

- `create_presentation` documents that `True` discloses everything (pyeudiw/sd_jwt/holder.py:75); in
  the code `True` asks for as much as an empty container (`TrueIsEmpty`).
- A request of `False` for an `SDObj` key whose value is an object does not just hide it: the
  holder raises, because the value is walked anyway (`FalseIsNotAnswered`). For list elements
  `False` hides and does not raise.
- The check for `_sd` in user claims does not look below `SDObj` list elements
  (`SdCheckMissesElements`); a plain `_sd_alg` key is issued and then dropped by every verifier
  (`SdAlgIsDropped`); a plain list element of the form `{"...": text}` vanishes
  (`FakeLeafVanishes`). These are the reasons for the conditions in `WellFormed`, and `RoundTripExact`
  says that they are needed. A plain `_sd` key that slips through is written over the digests
  collected so far, and its list is sorted in with the later ones. The earlier disclosures are handed
  out, but their digests are no longer collected (`UserListIsMerged`).
- The pattern for the wire format repeats its last group, so the key-binding part may be several
  JWTs run together (`KbPartNeedNotBeAJwt`); its `$` also matches before a final newline
  (`FinalNewlinePasses`).
- `SdJwt` checks no key binding when there is none, while `SDJWTVerifier`, once it expects an audience
  and a nonce, refuses that (`VerifiersCompared`).
- The checks that the merged operands of a claim agree are made only for some exact sets of operators:
  with `essential` or `add` beside them, a `superset_of` outside the `subset_of` passes
  (`CombineExact`, `EssentialHidesContradiction`).
- A claim that is essential and absent fails even when a statement of the chain sets it as metadata,
  because that is written afterwards (`EssentialAlongChain`).
- `superset_of` is merged by intersection, which loosens it (`GatheredOperandsAreMeets`), and a
  `value` that a subordinate adds under other operators is taken unchecked
  (`ChildValueIsUnchecked`).
- The gathered metadata is written over everything at the end, and only policies are checked against
  the metadata of a superior, never metadata against a superior's policy. So a subordinate that sets a
  claim as metadata overrides every policy above it (`MetadataOverridesPolicy`);
  `FinalRestrictionExact` says when a policy holds of what is returned.
- An expiry of zero counts as not set, so the running expiry is not always the minimum
  (`RunningExpExact` says when it is).
- The status-list endpoint publishes the digits of the packed integer as text, one character for each
  credential (`NumberedList`). A verifier reads bits of that text, so that every eighth position is a flag
  and the others are parts of the codes of '0' and '1'. The index in a credential is its
  `incremental_id`; for every number of credentials and every identifier there is a list in which
  that index gives the wrong answer (`IndexFails`), and `PublishedIndexExact` says for each list whether it
  does. The packed bytes themselves can be read correctly (`NumberedPacking`), but are not what is published.
- `create_presentation` never clears the key-binding JWT of an earlier call. A later call without a nonce
  sends it again, and both verifiers refuse that unless the same disclosures are selected
  (`SessionKeyBindingExact`, `OtherViewIsRefused`, `HiddenAgainIsRefused`).
- A field of a width other than 1, 2, 4 or 8 that crosses a byte is cut off (`ReadsFieldExact`).
- The HTTP cache's key holds the number of a time bucket but not its length. Callers with different
  `cache_ttl` can be served a response that is too old (`FreshnessExact`).

## Model

| member | source | states |
|---|---|---|
| Issuer.SDJWTIssuer.CreateSdClaims | pyeudiw/sd_jwt/issuer.py:95-113 | for any claims tree: returns its issued form and records exactly its disclosures and decoys, or raises the error of the specification |
| Issuer.SDJWTIssuer.CreateSdClaimsList | pyeudiw/sd_jwt/issuer.py:115-140 | the same for a list: SDObj elements become digest leaves, the others are issued in place |
| Issuer.SDJWTIssuer.CreateSdClaimsObject | pyeudiw/sd_jwt/issuer.py:142-177 | the same for any dict: SDObj keys become digests, a plain _sd takes the place of the digests collected so far, decoys are added, and _sd is sorted, or removed when empty |
| Issuer.SDJWTIssuer.CreateSdMembers | pyeudiw/sd_jwt/issuer.py:143-159 | the same for the loop over the members of a dict |
| Issuer.SDJWTIssuer.CreateDecoyClaimEntry | pyeudiw/sd_jwt/issuer.py:90-93 | a decoy is the digest of a fresh salt and is recorded |
| Issuer.SDJWTIssuer.AssembleSdJwtPayload | pyeudiw/sd_jwt/issuer.py:77-88 | for any claims: the payload is the issued claims with _sd_alg and, for a holder key, cnf written over them, unless the check for _sd or the issuing raises |
| RawIssuance.RawIsIssue | pyeudiw/sd_jwt/issuer.py:95-177 | without plain _sd keys, what is issued is the Issue of the theorems, and an error is raised iff an SDObj stands where neither a key nor a list element is |
| IssuerErrors.RefusedForSd | pyeudiw/sd_jwt/issuer.py:72-75 | for any claims, the issuer refuses them for a _sd key iff a dict with a plain _sd key can be reached from the outside without passing an SDObj list element |
| IssuerErrors.PayloadExact | pyeudiw/sd_jwt/issuer.py:72-88 | without SDObj list elements, claims are refused iff a plain _sd key is anywhere; without plain _sd keys, the payload is issued iff no SDObj is misplaced; nothing with a misplaced SDObj is ever issued |
| IssuerErrors.UserValueExact | pyeudiw/sd_jwt/issuer.py:142-177 | an object with a plain _sd key that was let through: a list is issued iff the whole list is empty or can be sorted; any other value must be an empty string or object, with no later SDObj key and no decoy |
| IssuedShape.ObjectShape | pyeudiw/sd_jwt/issuer.py:142-177 | an issued object is its plain keys with their values in order, before them one _sd list of a digest for each SDObj key and no or 2 to 5 decoys, in some order, or none if that would be empty; the decoys are recorded |
| IssuedShape.PayloadMembers | pyeudiw/sd_jwt/issuer.py:77-88 | the payload holds _sd_alg sha-256 and, for a holder key, cnf with jwk, and is the issued claims otherwise |
| UserLists.UserListIsMerged | pyeudiw/sd_jwt/issuer.py:143-177 | with a plain _sd key that holds a list, the one _sd list is a permutation of what is issued for that list, the digests of the later SDObj keys, each of a disclosure made for its key, and the decoys; the disclosures of earlier keys are handed out, but none of their digests is among those |
| UserLists.RawFresh | pyeudiw/sd_jwt/disclosure.py:20-38 | for any claims at all, every disclosure has a salt of its own |
| IssuedFacts.IssueFresh | pyeudiw/sd_jwt/disclosure.py:20-38 | every disclosure of an issuance has a salt of its own, so no two are equal |
| Verifier.CreateHashMappings | pyeudiw/sd_jwt/common.py:116-141 | fails iff a disclosure is repeated; otherwise the map sends each digest to its disclosure |
| Verifier.SDJWTVerifier.ExtractSdClaims | pyeudiw/sd_jwt/verifier.py:194-201 | checks _sd_alg and runs the stateful unpacking from an empty list of seen digests |
| Verifier.SDJWTVerifier.UnpackDisclosedClaims | pyeudiw/sd_jwt/verifier.py:203-253 | the recursive method with its shared list of seen digests behaves as the state-passing specification: same value, same error, same list |
| Verifier.SDJWTVerifier.UnpackList | pyeudiw/sd_jwt/verifier.py:205-220 | the same for the loop over a list, where digest leaves without a disclosure are dropped |
| Verifier.SDJWTVerifier.UnpackSdList | pyeudiw/sd_jwt/verifier.py:233-246 | the same for the loop over _sd, with the duplicate digest and duplicate key errors |
| SdJwt.ExtractClaimsFromPayload | pyeudiw/sd_jwt/sd_jwt.py:310-332 | the second verifier agrees with the first; a result means that no digest was met twice anywhere and no disclosed name overwrote another |
| SdJwt.UnpackClaims | pyeudiw/sd_jwt/sd_jwt.py:449-482 | the dispatch, on a list object shared by reference, behaves as the same specification |
| SdJwt.UnpackJsonArray | pyeudiw/sd_jwt/sd_jwt.py:353-394 | the same for the array loop |
| SdJwt.UnpackJsonDict | pyeudiw/sd_jwt/sd_jwt.py:397-446 | the same for the dict loops |
| UnpackingTheorems.UnpackExact | pyeudiw/sd_jwt/verifier.py:203-253 | for every payload, mapping and list of seen digests: unpacking returns iff the payload is sound and all _sd digests visited anywhere are distinct and new; it then returns the stateless expansion |
| VerifierErrors.UnpackErrors | pyeudiw/sd_jwt/verifier.py:203-253 | a sound payload fails only for a digest met twice, and without one that error is not raised |
| VerifierErrors.DigestsExact | pyeudiw/sd_jwt/verifier.py:233-234 | the digests of an object are those of its _sd list; with anything else under _sd it is never unpacked |
| VerifierErrors.VerifiedExact | pyeudiw/sd_jwt/verifier.py:194-201 | for any payload and honest mapping: the hash algorithm is refused iff an _sd_alg entry exists that is not the string sha-256; otherwise a value is returned iff the payload is sound and its visited digests are distinct, and it is the expansion |
| DisclosureOrder.UnpackLocal | pyeudiw/sd_jwt/verifier.py:203-253 | two honest mappings that know the same ones among the digests that are met give the same run, so disclosures whose digest is never met make no difference |
| Padding.DecoysMakeNoDifference | pyeudiw/sd_jwt/verifier.py:233-246 | for every payload and every way of inserting decoys into its _sd lists: the value is the same, and unpacking returns iff it did before and no digest, decoys included, is met twice |
| DisclosureOrder.FewerDisclosures | pyeudiw/sd_jwt/verifier.py:203-253 | what is accepted with some disclosures is accepted with fewer, and shows no more and no other scalars |
| DigestLists.PermutedDigests | pyeudiw/sd_jwt/issuer.py:170-175 | the order in which digests are sorted into _sd does not matter to verifier or holder |
| DigestLists.DecoysAreInert | pyeudiw/sd_jwt/issuer.py:90-93 | decoys behind the digests of an object disclose no name and no value and select nothing |
| RoundTrip.IssuedVisits | pyeudiw/sd_jwt/issuer.py:95-177 | an issued payload never meets a digest twice, whatever is presented |
| RoundTrip.IssuedSound | pyeudiw/sd_jwt/verifier.py:238-244 | with all disclosures, the duplicate-key error is avoided iff no dict has a plain key with the name of one of its SDObj keys |
| ViewTheorem.FullRoundTrip | pyeudiw/sd_jwt/utils/yaml_specification.py:97-118 | for any good claims tree with all disclosures: unpacking its issued form returns iff no names clash, and gives remove_sdobj_wrappers of the claims |
| RoundTripConverse.RoundTripExact | pyeudiw/sd_jwt/utils/yaml_specification.py:97-118 | for any claims that are issued without error and whose names do not clash: the round trip gives remove_sdobj_wrappers iff no dict anywhere has a plain _sd_alg key and, without decoys, no list anywhere a plain element that looks like a digest leaf |
| SelectiveDisclosure.PayloadRoundTrip | pyeudiw/sd_jwt/verifier.py:194-201 | the same for the whole payload with _sd_alg and cnf: for any plain JSON as holder key, it verifies iff the key does not meet an SDObj key cnf |
| Holder.SDJWTHolder.CreatePresentation | pyeudiw/sd_jwt/holder.py:64-86 | starts from no disclosures and selects those of the payload for the request |
| Holder.SDJWTHolder.SelectDisclosures | pyeudiw/sd_jwt/holder.py:129-159 | the walk appends exactly the selection of the specification, or returns its error |
| Holder.SDJWTHolder.SelectDisclosuresList | pyeudiw/sd_jwt/holder.py:161-249 | the same for lists, with missing requests filled up with None |
| Holder.SDJWTHolder.SelectDisclosuresDict | pyeudiw/sd_jwt/holder.py:251-311 | the same for dicts, where hidden values are walked even if not requested |
| Requests.MemberSelected | pyeudiw/sd_jwt/holder.py:272-300 | of an issued object at any depth, the disclosure of an SDObj key is selected iff the request holds an entry for it other than None, False, 0, '', [] and {} |
| Requests.ListElementSelected | pyeudiw/sd_jwt/holder.py:189-217 | of an issued list at any depth, the disclosure of an SDObj element is selected iff its position is within the request and the entry there is not None, False or 0 |
| Requests.SelectExact | pyeudiw/sd_jwt/holder.py:129-311 | for any payload, issued or not: the walk returns iff the request is None, True or of the kind of the payload and fits each element or member, with digests that stand for what their place asks |
| Holder.TrueIsEmpty | pyeudiw/sd_jwt/holder.py:272-274 | True asks for as much as an empty container |
| Presentation.FalsySelectsNothing | pyeudiw/sd_jwt/holder.py:295-309 | below a hidden value that is not selected nothing is selected: the walk selects nothing or raises |
| ViewTheorem.SelectsIssued | pyeudiw/sd_jwt/holder.py:129-311 | the holder selects only issued disclosures, each at most once |
| SelectionClosure.SelectionIsAnchored | pyeudiw/sd_jwt/holder.py:161-311 | each selected disclosure is a known one, and its digest sits in the payload or in a disclosure selected before it |
| Answers.HolderAnswersExact | pyeudiw/sd_jwt/holder.py:129-311 | the holder does not raise iff the request has a fitting shape at every place of the claims and of the confirmation claim that is walked |
| Requests.AnswerableExact | pyeudiw/sd_jwt/holder.py:129-311 | which requests fit, entry by entry: None, True or a container of the same kind whose entries fit; hidden elements that are not asked for take anything |
| Answers.FalseIsNotAnswered | pyeudiw/sd_jwt/holder.py:272-311 | a request of False for a hidden object always raises |
| Presentation.ViewOfIssued | pyeudiw/sd_jwt/verifier.py:203-253 | expanding issued claims with exactly the selected disclosures gives View(claims, request) |
| Requests.MembersShown | pyeudiw/sd_jwt/holder.py:272-311 | the view of an object has exactly the plain members and the SDObj members asked for, each as its own part of the request has it |
| Requests.ItemsShown | pyeudiw/sd_jwt/holder.py:189-249 | the view of a list has, in order, exactly the plain elements and the SDObj elements asked for, each as its own part of the request has it |
| SelectiveDisclosure.SelectiveDisclosureEndToEnd | pyeudiw/sd_jwt/holder.py:129-311 | for every well-formed claims dict, holder key, decoys, digest order and request that the holder answers: the selection has no duplicate and verifies to exactly View(claims, request) with the confirmation claim |
| Requests.ShownIffAskedFor | pyeudiw/sd_jwt/holder.py:272-300 | end to end, a verifier is shown a claim under an SDObj key iff the request asks for it, and iff its disclosure is selected |
| ClaimLimits.GoodClaimsPass | pyeudiw/sd_jwt/common.py:143-163 | well-formed claims pass the issuer's check |
| ClaimLimits.SdCheckExact | pyeudiw/sd_jwt/common.py:143-163 | without SDObj list elements the check finds every plain _sd key |
| ClaimLimits.SdCheckMissesElements | pyeudiw/sd_jwt/common.py:143-163 | below an SDObj list element it finds none |
| ClaimLimits.SdAlgIsDropped | pyeudiw/sd_jwt/verifier.py:227-231 | whatever is presented, the round trip fails for a dict with a plain _sd_alg key |
| ClaimLimits.FakeLeafVanishes | pyeudiw/sd_jwt/verifier.py:208-217 | whatever is presented, without decoys, the round trip fails for a list with a plain element that looks like a digest leaf |
| Wire.ParseExact | pyeudiw/sd_jwt/common.py:165-187 | parsing inverts writing: a string parses to a token iff it is that token written out, with parts that hold no tilde and a first part of three sections |
| Wire.ParseErrors | pyeudiw/sd_jwt/common.py:173-187 | a string without a tilde has too few parts, and one whose text before the first tilde does not have exactly two dots is no JWT; every other string is a token |
| Wire.CompactReader.ParseSdJwt | pyeudiw/sd_jwt/common.py:173-187 | the three fields receive the parts that, written out, give the string |
| Wire.SplitJoin | pyeudiw/sd_jwt/common.py:56-78 | splitting undoes joining for parts without the separator |
| Wire.JoinSplit | pyeudiw/sd_jwt/common.py:56-78 | joining undoes splitting for every string |
| Wire.IssuanceIsPresentation | pyeudiw/sd_jwt/issuer.py:214-219 | what the issuer writes is a presentation of everything with an empty key-binding part |
| Wire.SameStringToHash | pyeudiw/sd_jwt/sd_jwt.py:54-65 | the string hashed for key binding is the token without its last part |
| KeyBinding.KeyBindingAgreement | pyeudiw/sd_jwt/verifier.py:182-192 | with an injective hash, a verifier that finds the holder's digest in the key-binding part accepts exactly the presentations of the same JWT and disclosures in the same order |
| KeyBinding.VerifiersCompared | pyeudiw/sd_jwt/sd_jwt.py:41-65 | for every string: SdJwt accepts its key binding iff the string has the format and either holds none or SDJWTVerifier accepts it |
| WireFormat.FormatExact | pyeudiw/sd_jwt/schema.py:24-30 | the format check passes exactly the strings that, as they are or without a final newline, parse into a JWT, base64url disclosures and a tail of JWTs |
| WireFormat.FormatAlphabet | pyeudiw/sd_jwt/schema.py:24-30 | what passes holds only ASCII letters and digits, hyphens, underscores, dots and tildes, and perhaps a final newline |
| WireFormat.FinalNewlinePasses | pyeudiw/sd_jwt/schema.py:24-30 | every well-formed token passes with a newline at its end, which is then read as part of the key binding |
| WireFormat.WireRoundTrip | pyeudiw/sd_jwt/schema.py:24-30 | for all parts over their alphabet the written string is recognised and parses back to the same parts |
| WireFormat.KbPartNeedNotBeAJwt | pyeudiw/sd_jwt/schema.py:24 | two JWTs run together are accepted as the key-binding part |
| Protocol.ProtocolShowsView | pyeudiw/sd_jwt/holder.py:95-102 | string to string: the holder sends something iff the request fits; it has the SD-JWT format and verifies to the view asked for |
| Protocol.VerifyExact | pyeudiw/sd_jwt/verifier.py:27-57 | for any string: it fails if it is no token or two disclosures decode alike; otherwise the payload is verified with exactly the disclosures in the string |
| Protocol.HonestKeyBindingAccepted | pyeudiw/sd_jwt/common.py:240-256 | what an honest holder sends with key binding is accepted by both verifiers |
| HolderSession.PresentingHolder.CreatePresentation | pyeudiw/sd_jwt/holder.py:64-102 | the fields after a call, for whatever key-binding JWT was there before: it is replaced only when one is signed, sent in every case, and kept with the last presentation when the selection raises |
| HolderSession.FirstCall | pyeudiw/sd_jwt/holder.py:64-102 | the first call on a new holder is the one of the protocol |
| HolderSession.SessionKeyBindingExact | pyeudiw/sd_jwt/holder.py:85-102 | after any calls, with an injective hash and honest signers: what the next call sends passes the check of sd_hash iff its selection is the one signed last, and the other verifier's also when nothing was ever signed |
| HolderSession.OtherViewIsRefused | pyeudiw/sd_jwt/holder.py:85-102 | after a call with key binding, one without it that shows anything else is refused by both verifiers, for all well-formed claims and answered requests |
| HolderSession.HiddenAgainIsRefused | pyeudiw/sd_jwt/holder.py:85-102 | a concrete case: one claim is shown with key binding and then hidden without |
| CodecExample.CodecExists | pyeudiw/sd_jwt/common.py:80-105 | there are encoders of disclosures and payloads of the kind the protocol asks for |
| Policy.CombineClaimPolicy | pyeudiw/federation/policy.py:119-196 | the merge of two policies of a claim, with its errors, whatever the order in which the operators are visited |
| PolicyRules.CombineExact | pyeudiw/federation/policy.py:103-196 | when two policies of a claim merge, and to what, operator by operator: under a value only essential or the same value; otherwise iff the operands of each operator are compatible and, when no other operator is there, subset_of, superset_of, one_of and default agree |
| PolicyRules.EssentialHidesContradiction | pyeudiw/federation/policy.py:171-195 | with essential beside them, a superset_of outside a subset_of is not noticed |
| Policy.MergeLoop | pyeudiw/federation/policy.py:167-169 | the loop over the operators builds the rule that has each operator merged |
| PolicyChain.Rule.Combine | pyeudiw/federation/policy.py:199-245 | the rule changed in place holds the union of metadata and the merged policies, iff the statements agree, no fixed value is contradicted and all policies merge |
| PolicyChain.GatherPolicies | pyeudiw/federation/policy.py:285-319 | the fold over the chain, with empty statements skipped and claims in both parts refused |
| PolicyChain.MetadataDict.ApplyPresentClaim | pyeudiw/federation/policy.py:330-391 | value, one_of, add, subset_of and superset_of on a present claim; only that claim changes |
| PolicyChain.MetadataDict.FillAbsentClaims | pyeudiw/federation/policy.py:393-407 | the loop over the absent claims in any order fills each one in from value, add or default, fails iff an essential one stays missing, and leaves the present claims alone |
| PolicyChain.MetadataDict.ApplyMetadataPolicy | pyeudiw/federation/policy.py:321-409 | both loops over the claims in any order apply each claim's policy once |
| PolicyRules.PresentExact | pyeudiw/federation/policy.py:330-391 | when a policy suits a present claim, and what is left of the claim: value, the first choice of one_of, or the elements after add and subset_of |
| PolicyRules.ApplyExact | pyeudiw/federation/policy.py:321-409 | applying succeeds iff each policy suits the claim that is present and no essential claim is absent without value, add and default; absent claims are filled in with the first of these; after success every essential claim is present |
| PolicyGathering.GatherExact | pyeudiw/federation/policy.py:285-319 | for chains of any length: when gathering succeeds, and that it gathers the union of metadata and each claim's policies merged from the top down |
| PolicyRules.GatherRules | pyeudiw/federation/policy.py:199-319 | when gathering succeeds, in terms of the statements: metadata agrees, a policy below a claim's metadata says only essential or the same value, no statement below the first has a claim in both parts, and the policies of each claim merge |
| PolicyRules.EssentialAlongChain | pyeudiw/federation/policy.py:402-407 | after gathering, metadata fails for want of a claim iff the chain makes the claim essential and no statement gives a value, add or default, even if one sets it as metadata; what is returned has every claim that the chain makes essential |
| PolicyGathering.GatheredMetadataIsFinal | pyeudiw/federation/policy.py:411-426 | after gathering, any two statements agree, each metadata entry is the gathered and the final one, and the claims under policy are exactly those of the statements |
| PolicyTheorems.CombineRestricts | pyeudiw/federation/policy.py:119-196 | a merged policy asks for at least what each of the two asked for |
| PolicyTheorems.SubordinatesOnlyRestrict | pyeudiw/federation/policy.py:321-391 | after gathering and applying the policies, every present claim honours value, one_of and subset_of of every statement in the chain, up to a value that overrides |
| PolicyTheorems.FinalValueExact | pyeudiw/federation/policy.py:411-426 | what apply_policy returns for a claim is what the policies made of it iff every statement that sets it as metadata sets it to just that; otherwise it is what they set |
| PolicyTheorems.FinalRestrictionExact | pyeudiw/federation/policy.py:411-426 | a statement's policy holds of the returned value of a present claim iff it holds of every value that some statement sets for the claim |
| PolicyTheorems.MetadataOverridesPolicy | pyeudiw/federation/policy.py:199-245 | for any policy that applies and any value: a subordinate that sets the claim to it as metadata has the last word |
| PolicyTheorems.GatheredOperandsAreMeets | pyeudiw/federation/policy.py:13-22 | the gathered subset_of, superset_of and one_of are exactly the intersections along the chain |
| PolicyTheorems.ChildValueIsUnchecked | pyeudiw/federation/policy.py:160-169 | for any subset_of and any value, the value of a subordinate becomes final |
| PolicyApplication.MergeIsInTurn | pyeudiw/federation/policy.py:55-65 | for one claim governed by subset_of or one_of: merging a chain and applying the result is applying each policy in turn |
| PolicyApplication.GatherApplyIsInTurn | pyeudiw/federation/policy.py:299-391 | for whole chains of such policies, with any metadata: gather-then-apply succeeds iff the metadata fits the policies and applying every statement in turn succeeds, with equal results as sets |
| PolicyIdempotence.ApplyingSettles | pyeudiw/federation/policy.py:321-409 | a second application changes nothing iff every value filled in for an absent claim fits its own policy; claims outside the policy are never touched |
| TrustChain.FindJwk | pyeudiw/jwk/jwks.py:22-29 | the first key with the identifier, or one of two errors |
| TrustChain.FindJwkByKid | pyeudiw/jwk/jwks.py:22-29 | the search loop returns that key or error |
| TrustChain.StaticTrustChainValidator.Validate | pyeudiw/federation/trust_chain_validator.py:110-179 | the verdict for the chain, and for a valid one exp is the running expiry over all statements |
| TrustChain.StaticTrustChainValidator.ValidateRest | pyeudiw/federation/trust_chain_validator.py:156-179 | the loop from the statement below the anchor down to the leaf |
| TrustChain.StaticTrustChainValidator.UpdateExp | pyeudiw/federation/trust_chain_validator.py:252-260 | keeps the smaller expiry, with zero counting as not set |
| TrustChain.TrustChainExact | pyeudiw/federation/trust_chain_validator.py:110-179 | a chain of any length is valid iff the last statement verifies under the anchor's key with its kid and is unexpired, and every other one under a key that the statement after it publishes |
| TrustChain.VerdictExact | pyeudiw/federation/trust_chain_validator.py:110-179 | which chains raise and which are invalid, decided by the last statement or by the first one below it that is not linked |
| TrustChain.ValidIsAlive | pyeudiw/jwt/helper.py:158-170 | every statement of a valid chain is within its iat, exp and nbf, up to the tolerance, when it is verified |
| TrustChain.RunningExpExact | pyeudiw/federation/trust_chain_validator.py:252-260 | the running expiry is the minimum iff there is no zero, or a negative expiry, or the last one is zero |
| TrustChain.ValidExpIsMinimum | pyeudiw/federation/trust_chain_validator.py:110-179 | verifying checks lifetimes as validate_jwt_timestamps_claims does, so the expiry of a valid chain is the smallest in it, whatever the clock reads at each statement from the tolerance on |
| StatusList.StatusExact | pyeudiw/status_list/helper.py:73-85 | for any width: a position is accepted iff its field lies within the list (so it never indexes past it), and the value is the part of the field in the byte of its lowest bit |
| StatusList.StatusIsField | pyeudiw/status_list/helper.py:73-85 | for widths 1, 2, 4 and 8: position p reads bits p*width and up of the little-endian integer, and exactly the positions outside the list are refused |
| StatusList.NoWidthNoStatus | pyeudiw/status_list/helper.py:73-80 | with a width of zero or less nothing is read, and which error there is |
| StatusList.ReadsFieldExact | pyeudiw/status_list/helper.py:81-83 | reading is correct for every list iff the field does not cross a byte |
| StatusPacking.ArrayToBitstringLoop | pyeudiw/status_list/__init__.py:212-225 | the sort, the loop that sets and clears bits, and the conversion to bytes, with their errors |
| StatusPacking.SortedFacts | pyeudiw/status_list/__init__.py:212 | sorting is a permutation in ascending order that keeps, for each identifier, the last record last |
| StatusPacking.PackingExact | pyeudiw/status_list/__init__.py:212-225 | for any records: packing succeeds iff identifiers are in range and fit, and then every flag can be read back at its position |
| StatusPacking.PackingErrors | pyeudiw/status_list/__init__.py:214-225 | which error there is when packing fails: an identifier above the number of records, or else a bit that falls off the list |
| StatusPacking.NumberedPacking | pyeudiw/status_list/__init__.py:212-225 | for identifiers 1 to n in any order: the integer is the sum of 2^(n-id) over the revoked, fits in ceil(n/8) bytes, and get_status at 8*(B-1-(n-id)/8)+(n-id)%8 returns the flag |
| StatusEndpoint.FromToBytes | pyeudiw/satosa/frontends/openid4vci/endpoints/status_list_endpoint.py:118 | reading big-endian bytes as an integer undoes writing it, for integers that fit |
| StatusEndpoint.PublishedListExact | pyeudiw/satosa/frontends/openid4vci/endpoints/status_list_endpoint.py:113-118 | for any records but none, a list is published iff they can be packed; it has at least one digit for each, no more iff no identifier below 1 is revoked, and the digit of each identifier is its flag |
| StatusEndpoint.NumberedList | pyeudiw/satosa/frontends/openid4vci/endpoints/status_list_endpoint.py:113-118 | for identifiers 1 to n in any order: the text has n digits, and digit id-1 is '1' iff credential id is revoked |
| StatusEndpoint.ReadDigits | pyeudiw/satosa/frontends/openid4vci/endpoints/status_list_endpoint.py:82-85 | a verifier that reads bit j of character i of the published text finds the digit for j = 0, 1 for j = 4 and 5, and 0 otherwise |
| StatusEndpoint.PublishedIndexExact | pyeudiw/satosa/frontends/openid4vci/endpoints/base_credential_endpoint.py:238-245 | in each list, the index of a credential finds its flag iff the flag is what lies there: 1 for id%8 of 4 or 5, the flag of credential id/8+1 for id%8 = 0, and 0 otherwise; position 8*(id-1) always finds it |
| StatusEndpoint.IndexFails | pyeudiw/satosa/frontends/openid4vci/endpoints/base_credential_endpoint.py:238-245 | for every n and every id from 1 to n there is a list of n credentials in which that index is wrong |
| Bits.MaskIsLow | pyeudiw/status_list/helper.py:82-83 | masking with 2^k - 1 keeps the k lowest bits |
| Bits.BitOfOr | pyeudiw/status_list/__init__.py:216-218 | setting a bit changes that bit only |
| Bits.BitOfAndNot | pyeudiw/status_list/__init__.py:219-221 | clearing a bit changes that bit only |
| AttributeMapper.ExtractClaims | pyeudiw/duckle_ql/attribute_mapper.py:21-48 | fails iff a request is missing and says which; otherwise the result is the projection of the data to the requested paths; the data is unchanged although the result shares its dictionaries and writes through them |
| AttributeMapper.Find | pyeudiw/duckle_ql/attribute_mapper.py:30-33 | following the keys finds the value at the path or raises |
| AttributeMapper.SetNested | pyeudiw/duckle_ql/attribute_mapper.py:15-19 | keeps the invariant of the result for one more path, also through dictionaries of the data |
| AttributeMapper.SetDefault | pyeudiw/duckle_ql/attribute_mapper.py:17-18 | one step down the path, making a dictionary if there is none |
| AttributeMapper.SetItem | pyeudiw/duckle_ql/attribute_mapper.py:19 | the value ends up at the path; within the data this writes what was there |
| AttributeMapper.SucceedsIffAllExist | pyeudiw/duckle_ql/attribute_mapper.py:24-46 | nothing is missing iff every non-empty request names something that exists |
| AttributeMapper.RequestsExact | pyeudiw/duckle_ql/attribute_mapper.py:24-43 | what is reported missing and which paths are taken over, by the form of each request: the whole list of keys, or the first component of anything else |
| ClaimExtraction.GetExact | pyeudiw/duckle_ql/attribute_mapper.py:30-33 | a value is found at a path iff the keys lead to it one after the other |
| AttributeMapper.OrderDoesNotMatter | pyeudiw/duckle_ql/attribute_mapper.py:24-43 | results for the same set of paths agree at every path, whatever the order and even with prefixes |
| ClaimExtraction.InvAt | pyeudiw/duckle_ql/attribute_mapper.py:15-48 | at every path the finished result holds the very value of the data, a dictionary of its own, or nothing |
| TtlCache.HttpCache.CacheableGetHttpUrl | pyeudiw/tools/utils.py:173-202 | the answer and the cache after one call: cached or fetched, cleared after a status other than 200, and parameter errors |
| TtlCache.HttpCache.LruCachedGetHttpUrl | pyeudiw/tools/utils.py:205-233 | a cached key is answered from the cache; otherwise the fetched response is stored, and failures are not |
| TtlCache.UninterruptedCall | pyeudiw/tools/utils.py:190-202 | an uninterrupted call of the state machine does what the method does |
| TtlCache.CacheSafety | pyeudiw/tools/utils.py:190-202 | in every run of overlapping calls and evictions, a returned response was fetched for the same request under the same bucket number |
| TtlCache.OnlySuccessesStay | pyeudiw/tools/utils.py:200-202 | in every run, a response other than 200 stays cached only until the call that fetched it has checked it |
| TtlCache.SameBucketIsRecent | pyeudiw/tools/utils.py:190-194 | two clock readings in one bucket are less than cache_ttl apart |
| TtlCache.BucketExact | pyeudiw/tools/utils.py:190-194 | which clock readings a bucket number stands for, for positive, zero and negative lifetimes |
| TtlCache.SameBucketShares | pyeudiw/tools/utils.py:190-202 | after a call that ends with status 200, a call for the same request within the same multiple of the lifetime returns that response, and one within another multiple fetches again |
| TtlCache.CacheStep | pyeudiw/tools/utils.py:190-202 | in the state machine a cached response is never replaced; it goes away by eviction or when a failed response is checked, which clears everything |
| TtlCache.FreshnessExact | pyeudiw/tools/utils.py:190-198 | over all runs, every response is less than cache_ttl old iff all calls use one lifetime, with zero counting as one second |

## Left out

- Cryptography and codecs: signatures, SHA-256, base64 and JSON encoding. Verifying is an uninterpreted
  predicate; the hash is a free constructor over decoded disclosures, so two encodings of one decoded
  disclosure share a digest here. In `Wire` the hash is any function, injective where that matters.
- Salts never repeat; that random ones could is not modelled.
- JSON (non-compact) serialization, header assembly and signing in the issuer
  (pyeudiw/sd_jwt/issuer.py:179-212) and the key-binding JWT itself, its nonce, audience and times.
- The state of the issuer, holder and verifier objects after an exception: the contracts describe
  normal returns and say which error is raised.
- Which error is raised first in the holder's walk when several apply is that of the model's order,
  the insertion order of dicts, as in the source.
- Python values that are not JSON-like: an `_sd` entry that is a string or an object is an error
  here, where Python would iterate over its characters or keys; in `_sd` lists, 1, 1.0
  and True are one value to Python and different atoms here, so that the duplicate check differs for
  entries that are numbers; a disclosure that does not decode to a list of two or three with a string key is
  `Malformed`.
- FakeLeafVanishes: stated without decoys; with decoys the element gets an `_sd` of its own and does not
  look like a digest leaf any more.
- PublishedIndexExact and IndexFails: about the CWT, whose text is compressed on one side and decompressed on
  the other, which is taken to give it back. In the JWT the endpoint puts the bare digits, which the
  decoder takes for base64url and tries to decompress; that is not modelled.
- SessionKeyBindingExact: about sd_hash alone, as HonestKeyBindingAccepted is.
- PayloadRoundTrip, SelectiveDisclosureEndToEnd and ProtocolShowsView: the holder key may be any JSON
  without `_sd` or `_sd_alg` members and without elements that look like digest leaves, as keys are.
- RoundTripExact: asks that names do not clash, which FullRoundTrip has as a condition of its own.
- What sorting does to an `_sd` list that the user supplied is left open: it permutes the list or
  raises.
- HonestKeyBindingAccepted and VerifiersCompared: about sd_hash; signatures, audience, nonce, times and
  an unsupported `_sd_alg` are not part of them.
- SubordinatesOnlyRestrict: excludes what the code does not check, a value given by a subordinate
  under other operators, and superset_of, for which the exact merged set is proved instead.
- GatherApplyIsInTurn: for claims governed throughout by one of the two operators, as other mixes
  of operators do not merge like that.
- Policy values are strings or lists of strings, and the operands of subset_of, superset_of and one_of
  are sets; unknown operators are dropped, as the code does. The order of `list(set(...))` is an
  arbitrary fixed enumeration.
- TtlCache: which entries the LRU policy evicts, and when, is arbitrary; every choice is covered.
- ExtractClaims: the text of the error, and the failure to build it when a missing key is not a string.
- pyeudiw/federation/trust_chain_builder.py and statements.py, and refreshing a trust chain over HTTP:
  network fetching.
- The rest of the library: the other SATOSA endpoints, storage engines, DuckleHandler, X.509, DPoP, JWE and JWS
  wrappers, schemas. They are wrappers over libraries or input and output.
