/** The two verifiers' checks of sd_hash, the digest that a key-binding JWT holds over the presentation. */
module KeyBinding {
  import opened Wrappers
  import opened Wire
  import opened WireFormat

  // The sd_hash in a key-binding part; None when the part is not a JWT with one.
  type SdHashOf = string -> Option<string>

  // SDJWTVerifier, when an audience and a nonce are expected: a key-binding JWT is required.
  predicate VerifierAccepts(hash: string -> string, sdHashOf: SdHashOf, presentation: string) {
    match Parse(presentation)
    case Ok(t) => sdHashOf(t.kbJwt) == Some(hash(StringToHash(t.jwt, t.disclosures)))
    case Err(_) => false
  }

  // SdJwt: refuses every string that does not have the format, and checks nothing without key binding.
  ghost predicate SdJwtAccepts(hash: string -> string, sdHashOf: SdHashOf, presentation: string) {
    && IsSdJwtFormat(presentation)
    && match Parse(presentation)
       case Ok(t) => t.kbJwt == "" || sdHashOf(t.kbJwt) == Some(hash(TokenWithoutKb(t)))
       case Err(_) => false
  }

  predicate HasNoKeyBinding(presentation: string) {
    Parse(presentation).Ok? && Parse(presentation).value.kbJwt == ""
  }

  /**
   How the verifiers compare, exactly: for every string, the second accepts iff the string has
   the format and either holds no key binding or is accepted by the first.
   */
  lemma VerifiersCompared(hash: string -> string, sdHashOf: SdHashOf, presentation: string)
    ensures SdJwtAccepts(hash, sdHashOf, presentation) <==>
            IsSdJwtFormat(presentation) && (HasNoKeyBinding(presentation) || VerifierAccepts(hash, sdHashOf, presentation))
  {
    if IsSdJwtFormat(presentation) {
      FormatParses(presentation);
      var t := Parse(presentation).value;
      SameStringToHash(t.jwt, t.disclosures, t.kbJwt);
    }
  }

  /**
   Key-binding agreement. With an injective hash, a verifier that finds in the key-binding part
   what a holder computed over a JWT and disclosures accepts iff the presentation holds exactly
   that JWT and those disclosures, in that order.
   */
  lemma KeyBindingAgreement(hash: string -> string, sdHashOf: SdHashOf, jwt: string, disclosures: seq<string>,
                            presentation: string)
    requires forall s, t :: hash(s) == hash(t) ==> s == t
    requires AllWithout(SEPARATOR, [jwt] + disclosures)
    requires Parse(presentation).Ok?
    requires sdHashOf(Parse(presentation).value.kbJwt) == Some(hash(StringToHash(jwt, disclosures)))
    ensures VerifierAccepts(hash, sdHashOf, presentation) <==>
            Parse(presentation) == Ok(Token(jwt, disclosures, Parse(presentation).value.kbJwt))
  {
    var t := Parse(presentation).value;
    ParseExact(presentation, t);
    if StringToHash(t.jwt, t.disclosures) == StringToHash(jwt, disclosures) {
      SameParts(jwt, disclosures, t);
    }
  }

  lemma SameParts(jwt: string, disclosures: seq<string>, t: Token)
    requires AllWithout(SEPARATOR, [jwt] + disclosures) && Writable(t)
    requires StringToHash(t.jwt, t.disclosures) == StringToHash(jwt, disclosures)
    ensures t.jwt == jwt && t.disclosures == disclosures
  {
    var a, b := [jwt] + disclosures + [""], [t.jwt] + t.disclosures + [""];
    assert Without(SEPARATOR, "");
    forall i | 0 <= i < |b| ensures Without(SEPARATOR, b[i]) {
      if i < |b| - 1 {
        assert b[i] == Parts(t)[i];
      }
    }
    SplitJoin(SEPARATOR, a);
    SplitJoin(SEPARATOR, b);
    assert a[1..|a| - 1] == disclosures && b[1..|b| - 1] == t.disclosures;
    assert a[0] == b[0];
  }
}
