/**
 A holder that makes several presentations. The key-binding JWT is a field that is written when
 one is signed and never cleared, so that a later presentation without one sends the old one.
 */
module HolderSession {
  import opened JsonData
  import opened Wrappers
  import opened Issuance
  import opened Selection
  import opened Verifier
  import opened ViewTheorem
  import opened SelectiveDisclosure
  import opened WireFormat
  import opened Protocol
  import Answers
  import Holder
  import KeyBinding
  import Wire

  // A call: the claims to disclose, and, when a nonce, an audience and a key are given, the signer.
  datatype Ask = Ask(request: Request, signKb: Option<string -> string>)

  // What is written, and the key-binding JWT that is kept.
  datatype Answer = Answer(sent: Result<string, Error>, kb: string)

  // One call of create_presentation, with the key-binding JWT that is there from before.
  function Answered(c: Codec, jwt: string, m: Mapping, kb: string, ask: Ask): Answer
    requires Honest(m)
  {
    match Select(c.payloadOf(jwt), ask.request, m)
    case Err(e) => Answer(Err(e), kb)
    case Ok(s) =>
      var raw := Encoded(c, s);
      var kept := if ask.signKb.Some? then KbJwt(c, ask.signKb, jwt, raw) else kb;
      Answer(Ok(Wire.Present(Wire.Token(jwt, raw, kept))), kept)
  }

  // The first call on a new holder is that of the protocol.
  lemma FirstCall(c: Codec, issued: string, r: Request, signKb: Option<string -> string>)
    ensures Hold(c, issued, r, signKb) ==
            match Wire.Parse(issued)
            case Err(e) => Err(Unparsable(e))
            case Ok(t) =>
              var ds := Decoded(c, t.disclosures);
              if Repeats(ds) then Err(Rejected(DuplicateDisclosure))
              else
                match Answered(c, t.jwt, MappingOf(ds), "", Ask(r, signKb)).sent
                case Err(e) => Err(Rejected(e))
                case Ok(sent) => Ok(sent)
  {
  }

  // The SDJWTHolder object with all its fields; the selecting methods are those of its part.
  class PresentingHolder {
    const codec: Codec
    const serializedSdJwt: string
    const selector: Holder.SDJWTHolder
    var serializedKeyBindingJwt: string
    var sdJwtPresentation: string

    constructor (codec: Codec, jwt: string, selector: Holder.SDJWTHolder)
      ensures this.codec == codec && serializedSdJwt == jwt && this.selector == selector
      ensures serializedKeyBindingJwt == ""
    {
      this.codec, this.serializedSdJwt, this.selector := codec, jwt, selector;
      serializedKeyBindingJwt, sdJwtPresentation := "", "";
    }

    // When the selection raises, the fields stay as they were.
    method CreatePresentation(ask: Ask) returns (error: Option<Error>)
      requires Honest(selector.hashToDecodedDisclosure)
      modifies this, selector
      ensures var a := Answered(codec, serializedSdJwt, selector.hashToDecodedDisclosure, old(serializedKeyBindingJwt), ask);
              && serializedKeyBindingJwt == a.kb
              && error == (if a.sent.Err? then Some(a.sent.error) else None)
              && sdJwtPresentation == if a.sent.Ok? then a.sent.value else old(sdJwtPresentation)
    {
      selector.hsDisclosures := [];
      error := selector.SelectDisclosures(codec.payloadOf(serializedSdJwt), ask.request);
      if error == None {
        ghost var s := Select(codec.payloadOf(serializedSdJwt), ask.request, selector.hashToDecodedDisclosure).value;
        assert [] + s == s;
        var raw := Encoded(codec, selector.hsDisclosures);
        if ask.signKb.Some? {
          serializedKeyBindingJwt := ask.signKb.value(codec.hash(Wire.StringToHash(serializedSdJwt, raw)));
        }
        sdJwtPresentation := Wire.Present(Wire.Token(serializedSdJwt, raw, serializedKeyBindingJwt));
      }
    }
  }

  /* Whole sessions. */

  // The key-binding JWT that a new holder keeps after the calls.
  function KbAfter(c: Codec, jwt: string, m: Mapping, asks: seq<Ask>): string
    requires Honest(m)
  {
    if asks == [] then ""
    else Answered(c, jwt, m, KbAfter(c, jwt, m, asks[..|asks| - 1]), asks[|asks| - 1]).kb
  }

  // What the last of the calls that signed something selected.
  function LastSigned(payload: Json, m: Mapping, asks: seq<Ask>): Option<seq<Disclosure>>
    requires Honest(m)
  {
    if asks == [] then None
    else
      var last := asks[|asks| - 1];
      var s := Select(payload, last.request, m);
      if s.Ok? && last.signKb.Some? then Some(s.value) else LastSigned(payload, m, asks[..|asks| - 1])
  }

  // A signer writes JWTs that hold what was hashed.
  ghost predicate Signs(signKb: string -> string, sdHashOf: KeyBinding.SdHashOf) {
    forall h :: IsJwt(signKb(h)) && sdHashOf(signKb(h)) == Some(h)
  }

  ghost predicate HonestAsks(asks: seq<Ask>, sdHashOf: KeyBinding.SdHashOf) {
    forall i :: 0 <= i < |asks| && asks[i].signKb.Some? ==> Signs(asks[i].signKb.value, sdHashOf)
  }

  // An empty key-binding part, or one with the hash over the signed selection.
  ghost predicate Binds(c: Codec, jwt: string, sdHashOf: KeyBinding.SdHashOf, kb: string, signed: Option<seq<Disclosure>>) {
    match signed
    case None => kb == ""
    case Some(s) => IsJwt(kb) && sdHashOf(kb) == Some(c.hash(Wire.StringToHash(jwt, Encoded(c, s))))
  }

  lemma {:induction false} KeptKeyBinding(c: Codec, jwt: string, m: Mapping, asks: seq<Ask>, sdHashOf: KeyBinding.SdHashOf)
    requires Honest(m) && HonestAsks(asks, sdHashOf)
    ensures Binds(c, jwt, sdHashOf, KbAfter(c, jwt, m, asks), LastSigned(c.payloadOf(jwt), m, asks))
  {
    if asks == [] {
    } else {
      KeptKeyBinding(c, jwt, m, asks[..|asks| - 1], sdHashOf);
      var last := asks[|asks| - 1];
      if last.signKb.Some? {
        assert Signs(last.signKb.value, sdHashOf);
      }
    }
  }

  lemma EncodedDetermines(c: Codec, s: seq<Disclosure>, t: seq<Disclosure>)
    requires ValidCodec(c)
    ensures Encoded(c, s) == Encoded(c, t) <==> s == t
  {
    DecodedEncoded(c, s);
    DecodedEncoded(c, t);
  }

  // What is sent with a key-binding part that was signed over some selection, or without one.
  lemma {:induction false} SentWith(c: Codec, jwt: string, s: seq<Disclosure>, kb: string, signed: Option<seq<Disclosure>>,
                                    sdHashOf: KeyBinding.SdHashOf)
    requires ValidCodec(c) && IsJwt(jwt) && sdHashOf("") == None
    requires forall x, y :: c.hash(x) == c.hash(y) ==> x == y
    requires Binds(c, jwt, sdHashOf, kb, signed)
    ensures var sent := Wire.Present(Wire.Token(jwt, Encoded(c, s), kb));
            && (KeyBinding.VerifierAccepts(c.hash, sdHashOf, sent) <==> signed == Some(s))
            && (KeyBinding.SdJwtAccepts(c.hash, sdHashOf, sent) <==> signed == None || signed == Some(s))
  {
    var raw := Encoded(c, s);
    var sent := Wire.Present(Wire.Token(jwt, raw, kb));
    DecodedEncoded(c, s);
    WireRoundTrip(jwt, raw, kb);
    KeyBinding.VerifiersCompared(c.hash, sdHashOf, sent);
    if signed.Some? {
      var other := Encoded(c, signed.value);
      DecodedEncoded(c, signed.value);
      EncodedDetermines(c, s, signed.value);
      WireRoundTrip(jwt, other, "");
      Wire.ParseExact(Wire.Present(Wire.Token(jwt, other, "")), Wire.Token(jwt, other, ""));
      assert Wire.Parts(Wire.Token(jwt, other, "")) == [jwt] + other + [""];
      KeyBinding.KeyBindingAgreement(c.hash, sdHashOf, jwt, other, sent);
    }
  }

  /**
   Key binding over whole sessions, exactly. Whatever a new holder was asked for before, with an
   injective hash and honest signers: what the next call sends passes the check of sd_hash iff
   its selection is the one that was signed last, in this call or before; and it passes the other
   verifier's also when nothing was ever signed.
   */
  lemma {:induction false} SessionKeyBindingExact(c: Codec, jwt: string, m: Mapping, asks: seq<Ask>, ask: Ask,
                                                  sdHashOf: KeyBinding.SdHashOf)
    requires ValidCodec(c) && Honest(m) && IsJwt(jwt) && sdHashOf("") == None
    requires forall x, y :: c.hash(x) == c.hash(y) ==> x == y
    requires HonestAsks(asks + [ask], sdHashOf)
    ensures var sent := Answered(c, jwt, m, KbAfter(c, jwt, m, asks), ask).sent;
            var s := Select(c.payloadOf(jwt), ask.request, m);
            var signed := LastSigned(c.payloadOf(jwt), m, asks + [ask]);
            && sent.Ok? == s.Ok?
            && (sent.Ok? ==>
                  && (KeyBinding.VerifierAccepts(c.hash, sdHashOf, sent.value) <==> signed == Some(s.value))
                  && (KeyBinding.SdJwtAccepts(c.hash, sdHashOf, sent.value) <==> signed == None || signed == Some(s.value)))
  {
    var s := Select(c.payloadOf(jwt), ask.request, m);
    if s.Ok? {
      assert (asks + [ask])[..|asks|] == asks;
      KeptKeyBinding(c, jwt, m, asks + [ask], sdHashOf);
      SentWith(c, jwt, s.value, KbAfter(c, jwt, m, asks + [ask]), LastSigned(c.payloadOf(jwt), m, asks + [ask]), sdHashOf);
    }
  }

  // The first call signs, and the second selects something else and does not sign.
  lemma {:induction false} OtherSelectionIsRefused(c: Codec, jwt: string, m: Mapping, first: Ask, second: Ask,
                                                   sdHashOf: KeyBinding.SdHashOf)
    requires ValidCodec(c) && Honest(m) && IsJwt(jwt) && sdHashOf("") == None
    requires forall x, y :: c.hash(x) == c.hash(y) ==> x == y
    requires first.signKb.Some? && Signs(first.signKb.value, sdHashOf) && second.signKb.None?
    requires Select(c.payloadOf(jwt), first.request, m).Ok? && Select(c.payloadOf(jwt), second.request, m).Ok?
    requires Select(c.payloadOf(jwt), first.request, m) != Select(c.payloadOf(jwt), second.request, m)
    ensures Refused(c, jwt, m, first, second, sdHashOf)
  {
    SessionKeyBindingExact(c, jwt, m, [first], second, sdHashOf);
    assert ([first] + [second])[..1] == [first];
    assert LastSigned(c.payloadOf(jwt), m, [first]) == Some(Select(c.payloadOf(jwt), first.request, m).value);
  }

  // What a new holder sends in the second of the calls passes neither check of sd_hash.
  ghost predicate Refused(c: Codec, jwt: string, m: Mapping, first: Ask, second: Ask, sdHashOf: KeyBinding.SdHashOf)
    requires Honest(m)
  {
    var sent := Answered(c, jwt, m, KbAfter(c, jwt, m, [first]), second).sent;
    && sent.Ok?
    && !KeyBinding.VerifierAccepts(c.hash, sdHashOf, sent.value)
    && !KeyBinding.SdJwtAccepts(c.hash, sdHashOf, sent.value)
  }

  lemma {:induction false} OtherViewOtherSelection(claims: seq<ClaimMember>, holderKey: Option<Jwk>, env: Env, n: nat, r: Request,
                                                   r': Request)
    requires ValidEnv(env) && WellFormed(claims, env) && KeyFits(claims, holderKey)
    requires Answers.HolderAnswers(claims, holderKey, r) && Answers.HolderAnswers(claims, holderKey, r')
    requires Confirmed(ViewMembers(claims, r), holderKey) != Confirmed(ViewMembers(claims, r'), holderKey)
    ensures var p := IssuePayload(claims, holderKey, env, n);
            var s, s' := Select(p.out, r, MappingOf(p.disclosures)), Select(p.out, r', MappingOf(p.disclosures));
            s.Ok? && s'.Ok? && s != s'
  {
    Answers.HolderAnswersExact(claims, holderKey, env, n, r);
    Answers.HolderAnswersExact(claims, holderKey, env, n, r');
    SelectiveDisclosureEndToEnd(claims, holderKey, env, n, r);
    SelectiveDisclosureEndToEnd(claims, holderKey, env, n, r');
  }

  /**
   After a presentation with key binding, one without it that shows anything else is refused by
   both verifiers.
   */
  lemma {:induction false} OtherViewIsRefused(c: Codec, claims: seq<ClaimMember>, holderKey: Option<Jwk>, env: Env, n: nat,
                                              r: Request, signKb: string -> string, r': Request, sdHashOf: KeyBinding.SdHashOf)
    requires ValidCodec(c) && ValidEnv(env) && WellFormed(claims, env) && KeyFits(claims, holderKey)
    requires Signs(signKb, sdHashOf) && sdHashOf("") == None
    requires forall x, y :: c.hash(x) == c.hash(y) ==> x == y
    requires Answers.HolderAnswers(claims, holderKey, r) && Answers.HolderAnswers(claims, holderKey, r')
    requires Confirmed(ViewMembers(claims, r), holderKey) != Confirmed(ViewMembers(claims, r'), holderKey)
    ensures var p := IssuePayload(claims, holderKey, env, n);
            Refused(c, c.sign(p.out), MappingOf(p.disclosures), Ask(r, Some(signKb)), Ask(r', None), sdHashOf)
  {
    var p := IssuePayload(claims, holderKey, env, n);
    OtherViewOtherSelection(claims, holderKey, env, n, r, r');
    OtherSelectionIsRefused(c, c.sign(p.out), MappingOf(p.disclosures), Ask(r, Some(signKb)), Ask(r', None), sdHashOf);
  }

  // For example: a claim is shown with key binding, and then hidden without.
  lemma {:induction false} HiddenAgainIsRefused(c: Codec, env: Env, n: nat, signKb: string -> string, sdHashOf: KeyBinding.SdHashOf)
    requires ValidCodec(c) && ValidEnv(env) && Signs(signKb, sdHashOf) && sdHashOf("") == None
    requires forall x, y :: c.hash(x) == c.hash(y) ==> x == y
    ensures var p := IssuePayload([ClaimMember(SDKey("a"), Leaf(Null))], None, env, n);
            var shown := Ask(RDict(map["a" := RBool(true)]), Some(signKb));
            Refused(c, c.sign(p.out), MappingOf(p.disclosures), shown, Ask(RNone, None), sdHashOf)
  {
    var claims, r := [ClaimMember(SDKey("a"), Leaf(Null))], RDict(map["a" := RBool(true)]);
    OneHiddenClaim(env, r);
    var shown, hidden: map<string, Value> := map["a" := VAtom(Null)], map[];
    assert "a" in shown && "a" !in hidden;
    OtherViewIsRefused(c, claims, None, env, n, r, signKb, RNone, sdHashOf);
  }

  lemma {:induction false} OneHiddenClaim(env: Env, r: Request)
    requires r == RDict(map["a" := RBool(true)])
    ensures var claims := [ClaimMember(SDKey("a"), Leaf(Null))];
            && WellFormed(claims, env)
            && Answers.HolderAnswers(claims, None, r) && Answers.HolderAnswers(claims, None, RNone)
            && ViewMembers(claims, r) == map["a" := VAtom(Null)] && ViewMembers(claims, RNone) == map[]
  {
    var claims := [ClaimMember(SDKey("a"), Leaf(Null))];
    assert claims[1..] == [];
    assert Get(r, "a") == RBool(true) && Get(RNone, "a") == RNone;
  }
}
