/** Issuer, holder and verifier exchanging strings. */
module Protocol {
  import opened JsonData
  import opened Wrappers
  import opened Issuance
  import opened Selection
  import opened Verifier
  import opened ViewTheorem
  import opened SelectiveDisclosure
  import Answers
  import KeyBinding
  import Wire
  import opened WireFormat

  // Serialization, as far as the protocol depends on it: base64url of JSON, and signed JWTs.
  datatype Codec = Codec(
    encodeDisclosure: Disclosure -> string,
    decodeDisclosure: string -> Disclosure,
    sign: Json -> string,
    payloadOf: string -> Json,
    hash: string -> string)

  ghost predicate ValidCodec(c: Codec) {
    && (forall d :: c.decodeDisclosure(c.encodeDisclosure(d)) == d && IsSegment(c.encodeDisclosure(d)))
    && (forall j :: c.payloadOf(c.sign(j)) == j && IsJwt(c.sign(j)))
  }

  function Encoded(c: Codec, ds: seq<Disclosure>): seq<string> {
    seq(|ds|, i requires 0 <= i < |ds| => c.encodeDisclosure(ds[i]))
  }

  function Decoded(c: Codec, raw: seq<string>): seq<Disclosure> {
    seq(|raw|, i requires 0 <= i < |raw| => c.decodeDisclosure(raw[i]))
  }

  function IssueToken(c: Codec, claims: seq<ClaimMember>, holderKey: Option<Jwk>, env: Env, n: nat): string {
    var p := IssuePayload(claims, holderKey, env, n);
    Wire.IssuanceString(c.sign(p.out), Encoded(c, p.disclosures))
  }

  datatype Failure = Unparsable(parse: Wire.ParseError) | Rejected(error: Error)

  // The hash over the presentation goes into a key-binding JWT when the holder makes one.
  function KbJwt(c: Codec, signKb: Option<string -> string>, jwt: string, disclosures: seq<string>): string {
    if signKb.Some? then signKb.value(c.hash(Wire.StringToHash(jwt, disclosures))) else ""
  }

  function Hold(c: Codec, issued: string, r: Request, signKb: Option<string -> string>): Result<string, Failure> {
    match Wire.Parse(issued)
    case Err(e) => Err(Unparsable(e))
    case Ok(t) =>
      var ds := Decoded(c, t.disclosures);
      if Repeats(ds) then Err(Rejected(DuplicateDisclosure))
      else
        match Select(c.payloadOf(t.jwt), r, MappingOf(ds))
        case Err(e) => Err(Rejected(e))
        case Ok(s) =>
          var raw := Encoded(c, s);
          Ok(Wire.Present(Wire.Token(t.jwt, raw, KbJwt(c, signKb, t.jwt, raw))))
  }

  // Signature checks are assumed to pass; they are not part of this model.
  function Verify(c: Codec, presentation: string): Result<Value, Failure> {
    match Wire.Parse(presentation)
    case Err(e) => Err(Unparsable(e))
    case Ok(t) =>
      var ds := Decoded(c, t.disclosures);
      if Repeats(ds) then Err(Rejected(DuplicateDisclosure))
      else
        match Verified(c.payloadOf(t.jwt), MappingOf(ds))
        case Err(e) => Err(Rejected(e))
        case Ok(v) => Ok(v)
  }

  /**
   What verifying any string comes to: it fails if the string is no token, or two of its disclosures
   decode to the same; otherwise the payload is verified with exactly the disclosures of the string.
   */
  lemma {:induction false} VerifyExact(c: Codec, presentation: string)
    ensures match Wire.Parse(presentation)
            case Err(e) => Verify(c, presentation) == Err(Unparsable(e))
            case Ok(t) =>
              var ds := t.disclosures;
              if exists i, j :: 0 <= i < j < |ds| && c.decodeDisclosure(ds[i]) == c.decodeDisclosure(ds[j])
              then Verify(c, presentation) == Err(Rejected(DuplicateDisclosure))
              else
                exists m :: Honest(m)
                            && (forall d :: DigestOf(d) in m <==> exists i :: 0 <= i < |ds| && c.decodeDisclosure(ds[i]) == d)
                            && match Verified(c.payloadOf(t.jwt), m)
                               case Err(e) => Verify(c, presentation) == Err(Rejected(e))
                               case Ok(v) => Verify(c, presentation) == Ok(v)
  {
    if Wire.Parse(presentation).Ok? {
      var t := Wire.Parse(presentation).value;
      var decoded := Decoded(c, t.disclosures);
      RepeatsDecoded(c, t.disclosures);
      var m := MappingOf(decoded);
      forall d ensures DigestOf(d) in m <==> exists i :: 0 <= i < |t.disclosures| && c.decodeDisclosure(t.disclosures[i]) == d {
        KnownDecoded(c, t.disclosures, d);
      }
    }
  }

  lemma RepeatsDecoded(c: Codec, raw: seq<string>)
    ensures Repeats(Decoded(c, raw)) <==>
              exists i, j :: 0 <= i < j < |raw| && c.decodeDisclosure(raw[i]) == c.decodeDisclosure(raw[j])
  {
    var ds := Decoded(c, raw);
    if Repeats(ds) {
      var i, j :| 0 <= i < j < |ds| && ds[i] == ds[j];
      assert c.decodeDisclosure(raw[i]) == c.decodeDisclosure(raw[j]);
    }
    if i, j :| 0 <= i < j < |raw| && c.decodeDisclosure(raw[i]) == c.decodeDisclosure(raw[j]) {
      assert ds[i] == ds[j];
    }
  }

  lemma KnownDecoded(c: Codec, raw: seq<string>, d: Disclosure)
    ensures DigestOf(d) in MappingOf(Decoded(c, raw)) <==> exists i :: 0 <= i < |raw| && c.decodeDisclosure(raw[i]) == d
  {
    var ds := Decoded(c, raw);
    if i :| 0 <= i < |raw| && c.decodeDisclosure(raw[i]) == d {
      assert ds[i] == d;
    }
  }

  lemma DecodedEncoded(c: Codec, ds: seq<Disclosure>)
    requires ValidCodec(c)
    ensures Decoded(c, Encoded(c, ds)) == ds && AreSegments(Encoded(c, ds))
  {
  }

  lemma IssuedParses(c: Codec, claims: seq<ClaimMember>, holderKey: Option<Jwk>, env: Env, n: nat)
    requires ValidCodec(c)
    ensures var p := IssuePayload(claims, holderKey, env, n);
            Wire.Parse(IssueToken(c, claims, holderKey, env, n)) ==
            Ok(Wire.Token(c.sign(p.out), Encoded(c, p.disclosures), ""))
  {
    var p := IssuePayload(claims, holderKey, env, n);
    DecodedEncoded(c, p.disclosures);
    WireRoundTrip(c.sign(p.out), Encoded(c, p.disclosures), "");
  }

  // Exactly what the holder sends, when it sends something.
  lemma HolderSends(c: Codec, claims: seq<ClaimMember>, holderKey: Option<Jwk>, env: Env, n: nat, r: Request,
                    signKb: Option<string -> string>)
    requires ValidCodec(c)
    ensures var p := IssuePayload(claims, holderKey, env, n);
            var s := Select(p.out, r, MappingOf(p.disclosures));
            var sent := Hold(c, IssueToken(c, claims, holderKey, env, n), r, signKb);
            && (sent.Ok? <==> s.Ok?)
            && (s.Ok? ==> sent.value == Wire.Present(Wire.Token(c.sign(p.out), Encoded(c, s.value),
                                                                KbJwt(c, signKb, c.sign(p.out), Encoded(c, s.value)))))
  {
    var p := IssuePayload(claims, holderKey, env, n);
    IssuedParses(c, claims, holderKey, env, n);
    DecodedEncoded(c, p.disclosures);
    IssuedMapping(claims, holderKey, env, n);
  }

  /**
   The protocol, string to string. For every well-formed claims dict, holder key, decoys,
   digest order, request and key binding: an honest holder sends a string iff the request fits
   the claims; and what it sends has the SD-JWT format, and verifies to exactly the view of the
   claims that was asked for.
   */
  lemma ProtocolShowsView(c: Codec, claims: seq<ClaimMember>, holderKey: Option<Jwk>, env: Env, n: nat, r: Request,
                          signKb: Option<string -> string>)
    requires ValidCodec(c) && ValidEnv(env) && WellFormed(claims, env) && KeyFits(claims, holderKey)
    requires signKb.Some? ==> forall h :: IsJwt(signKb.value(h))
    ensures var sent := Hold(c, IssueToken(c, claims, holderKey, env, n), r, signKb);
            && (sent.Ok? <==> Answers.HolderAnswers(claims, holderKey, r))
            && (sent.Ok? ==>
                  && IsSdJwtFormat(sent.value)
                  && Verify(c, sent.value) == Ok(Confirmed(ViewMembers(claims, r), holderKey)))
  {
    var p := IssuePayload(claims, holderKey, env, n);
    var s := Select(p.out, r, MappingOf(p.disclosures));
    HolderSends(c, claims, holderKey, env, n, r, signKb);
    Answers.HolderAnswersExact(claims, holderKey, env, n, r);
    if s.Ok? {
      SelectiveDisclosureEndToEnd(claims, holderKey, env, n, r);
      DecodedEncoded(c, s.value);
      WireRoundTrip(c.sign(p.out), Encoded(c, s.value), KbJwt(c, signKb, c.sign(p.out), Encoded(c, s.value)));
    }
  }

  /** What an honest holder signs is accepted by both verifiers. */
  lemma HonestKeyBindingAccepted(c: Codec, claims: seq<ClaimMember>, holderKey: Option<Jwk>, env: Env, n: nat,
                                 r: Request, signKb: string -> string, sdHashOf: KeyBinding.SdHashOf)
    requires ValidCodec(c) && forall h :: IsJwt(signKb(h)) && sdHashOf(signKb(h)) == Some(h)
    ensures var p := IssuePayload(claims, holderKey, env, n);
            var s := Select(p.out, r, MappingOf(p.disclosures));
            s.Ok? ==>
              var sent := Hold(c, IssueToken(c, claims, holderKey, env, n), r, Some(signKb));
              && sent.Ok?
              && KeyBinding.VerifierAccepts(c.hash, sdHashOf, sent.value)
              && KeyBinding.SdJwtAccepts(c.hash, sdHashOf, sent.value)
  {
    var p := IssuePayload(claims, holderKey, env, n);
    var s := Select(p.out, r, MappingOf(p.disclosures));
    HolderSends(c, claims, holderKey, env, n, r, Some(signKb));
    if s.Ok? {
      SentIsAccepted(c, c.sign(p.out), Encoded(c, s.value), signKb, sdHashOf);
      DecodedEncoded(c, s.value);
    }
  }

  lemma SentIsAccepted(c: Codec, jwt: string, raw: seq<string>, signKb: string -> string, sdHashOf: KeyBinding.SdHashOf)
    requires IsJwt(jwt) && AreSegments(raw)
    requires forall h :: IsJwt(signKb(h)) && sdHashOf(signKb(h)) == Some(h)
    ensures var sent := Wire.Present(Wire.Token(jwt, raw, KbJwt(c, Some(signKb), jwt, raw)));
            KeyBinding.VerifierAccepts(c.hash, sdHashOf, sent) && KeyBinding.SdJwtAccepts(c.hash, sdHashOf, sent)
  {
    var kb := KbJwt(c, Some(signKb), jwt, raw);
    WireRoundTrip(jwt, raw, kb);
    KeyBinding.VerifiersCompared(c.hash, sdHashOf, Wire.Present(Wire.Token(jwt, raw, kb)));
  }
}
