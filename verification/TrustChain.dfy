/** Static trust chains: a walk from the trust anchor down to the leaf. */
module TrustChain {
  import opened Wrappers

  // A public key; material stands for everything but the key identifier.
  datatype Jwk = Jwk(kid: Option<string>, material: int)

  // A decoded entity statement. Each of these claims may be missing.
  datatype Statement = Statement(kid: Option<string>, iat: Option<int>, exp: Option<int>, nbf: Option<int>,
                                 keys: Option<seq<Jwk>>, body: int)

  // What verifying a signed statement with a key amounts to; a failure raises.
  type Verifies = (Jwk, Statement) -> bool

  datatype KidError = InvalidKid | KidNotFound

  datatype Verdict = Valid | Invalid | Raised

  /* jwks.py */

  predicate HasKid(jwk: Jwk, kid: string) {
    jwk.kid.Some? && jwk.kid.value != "" && jwk.kid.value == kid
  }

  // The first key with the identifier.
  function FindJwk(jwks: seq<Jwk>, kid: Option<string>): (r: Result<Jwk, KidError>)
    ensures r.Ok? <==> kid.Some? && kid.value != "" && exists i :: 0 <= i < |jwks| && HasKid(jwks[i], kid.value)
    ensures r.Err? ==> r.error == if kid.None? || kid.value == "" then InvalidKid else KidNotFound
    ensures r.Ok? ==> exists i :: 0 <= i < |jwks| && jwks[i] == r.value && HasKid(jwks[i], kid.value)
                                  && forall j :: 0 <= j < i ==> !HasKid(jwks[j], kid.value)
  {
    if kid.None? || kid.value == "" then Err(InvalidKid)
    else if jwks == [] then Err(KidNotFound)
    else if HasKid(jwks[0], kid.value) then Ok(jwks[0])
    else
      var r := FindJwk(jwks[1..], kid);
      assert forall i :: 0 <= i < |jwks[1..]| ==> jwks[1..][i] == jwks[i + 1];
      assert forall i :: 1 <= i < |jwks| ==> jwks[i] == jwks[1..][i - 1];
      r
  }

  method FindJwkByKid(jwks: seq<Jwk>, kid: Option<string>) returns (r: Result<Jwk, KidError>)
    ensures r == FindJwk(jwks, kid)
  {
    if kid.None? || kid.value == "" {
      return Err(InvalidKid);
    }
    for i := 0 to |jwks|
      invariant FindJwk(jwks[i..], kid) == FindJwk(jwks, kid)
    {
      assert jwks[i..][0] == jwks[i] && jwks[i..][1..] == jwks[i + 1..];
      if HasKid(jwks[i], kid.value) {
        return Ok(jwks[i]);
      }
    }
    return Err(KidNotFound);
  }

  /* The running expiry. */

  // set_exp: zero counts as not set.
  function SetExp(current: int, exp: int): int {
    if current == 0 || current > exp then exp else current
  }

  function RunningExp(exps: seq<int>): int
    requires exps != []
  {
    if |exps| == 1 then exps[0] else SetExp(RunningExp(exps[..|exps| - 1]), exps[|exps| - 1])
  }

  predicate IsMinimum(x: int, exps: seq<int>) {
    x in exps && forall i :: 0 <= i < |exps| ==> x <= exps[i]
  }

  /**
   The running expiry is the minimum iff no zero is forgotten: there is no zero, or some
   expiry is negative, or the last one is zero.
   */
  lemma {:induction false} RunningExpExact(exps: seq<int>)
    requires exps != []
    ensures IsMinimum(RunningExp(exps), exps) <==>
            0 !in exps || (exists i :: 0 <= i < |exps| && exps[i] < 0) || exps[|exps| - 1] == 0
    ensures RunningExp(exps) in exps
    ensures RunningExp(exps) < 0 <==> exists i :: 0 <= i < |exps| && exps[i] < 0
    ensures RunningExp(exps) == 0 <==> (exps[|exps| - 1] == 0 && forall i :: 0 <= i < |exps| ==> exps[i] >= 0)
    decreases |exps|
  {
    if |exps| > 1 {
      var rest, last := exps[..|exps| - 1], exps[|exps| - 1];
      assert exps == rest + [last];
      RunningExpExact(rest);
      RunningExpSnoc(rest, last);
    } else {
      assert exps == [exps[0]];
    }
  }

  lemma RunningExpSnoc(rest: seq<int>, last: int)
    requires rest != []
    requires IsMinimum(RunningExp(rest), rest) <==>
             0 !in rest || (exists i :: 0 <= i < |rest| && rest[i] < 0) || rest[|rest| - 1] == 0
    requires RunningExp(rest) in rest
    requires RunningExp(rest) < 0 <==> exists i :: 0 <= i < |rest| && rest[i] < 0
    requires RunningExp(rest) == 0 <==> (rest[|rest| - 1] == 0 && forall i :: 0 <= i < |rest| ==> rest[i] >= 0)
    ensures var exps, r := rest + [last], SetExp(RunningExp(rest), last);
            && RunningExp(exps) == r
            && (IsMinimum(r, exps) <==> 0 !in exps || (exists i :: 0 <= i < |exps| && exps[i] < 0) || last == 0)
            && r in exps
            && (r < 0 <==> exists i :: 0 <= i < |exps| && exps[i] < 0)
            && (r == 0 <==> (last == 0 && forall i :: 0 <= i < |exps| ==> exps[i] >= 0))
  {
    var exps := rest + [last];
    assert exps[..|exps| - 1] == rest && exps[|rest|] == last;
    assert forall i :: 0 <= i < |rest| ==> exps[i] == rest[i];
  }

  // With positive expiries throughout, it is the minimum.
  lemma PositiveExpIsMinimum(exps: seq<int>)
    requires exps != [] && forall i :: 0 <= i < |exps| ==> exps[i] > 0
    ensures IsMinimum(RunningExp(exps), exps)
  {
    RunningExpExact(exps);
  }

  /* validate */

  // st verifies under a key that the keys offer for its identifier, and has what the walk needs.
  predicate Linked(keys: seq<Jwk>, st: Statement, verifies: Verifies) {
    var jwk := FindJwk(keys, st.kid);
    jwk.Ok? && verifies(jwk.value, st) && st.keys.Some? && st.exp.Some?
  }

  // The walk below the statement that published keys, from the last of rest to its first.
  function Walk(rest: seq<Statement>, keys: seq<Jwk>, verifies: Verifies): Verdict
    decreases |rest|
  {
    if rest == [] then Valid
    else
      var st := rest[|rest| - 1];
      var jwk := FindJwk(keys, st.kid);
      if jwk.Err? then Invalid
      else if !verifies(jwk.value, st) || st.keys.None? || st.exp.None? then Raised
      else Walk(rest[..|rest| - 1], st.keys.value, verifies)
  }

  function Validated(chain: seq<Statement>, anchors: seq<Jwk>, now: int, verifies: Verifies): Verdict {
    if chain == [] then Raised
    else
      var last := chain[|chain| - 1];
      var jwk := FindJwk(anchors, last.kid);
      if jwk.Err? || !verifies(jwk.value, last) || last.exp.None? then Raised
      else if last.exp.value < now then Invalid
      else if last.keys.None? then Raised
      else Walk(chain[..|chain| - 1], last.keys.value, verifies)
  }

  // From the anchor down to the leaf.
  function Exps(chain: seq<Statement>): seq<int> {
    seq(|chain|, i requires 0 <= i < |chain| =>
      var st := chain[|chain| - 1 - i];
      if st.exp.Some? then st.exp.value else 0)
  }

  predicate LinkedAt(chain: seq<Statement>, i: int, verifies: Verifies)
    requires 0 <= i < |chain| - 1
  {
    chain[i + 1].keys.Some? && Linked(chain[i + 1].keys.value, chain[i], verifies)
  }

  // Every statement below the last is linked to the one after it.
  ghost predicate AllLinked(chain: seq<Statement>, verifies: Verifies) {
    forall i :: 0 <= i < |chain| - 1 ==> LinkedAt(chain, i, verifies)
  }

  lemma {:induction false} WalkExact(chain: seq<Statement>, verifies: Verifies)
    requires chain != [] && chain[|chain| - 1].keys.Some?
    ensures Walk(chain[..|chain| - 1], chain[|chain| - 1].keys.value, verifies) == Valid <==> AllLinked(chain, verifies)
    decreases |chain|
  {
    if |chain| > 1 {
      var upper := chain[..|chain| - 1];
      var st := upper[|upper| - 1];
      assert chain[..|chain| - 1][..|chain| - 2] == upper[..|upper| - 1];
      assert forall i :: 0 <= i < |upper| - 1 ==> LinkedAt(upper, i, verifies) == LinkedAt(chain, i, verifies);
      assert LinkedAt(chain, |chain| - 2, verifies) == Linked(chain[|chain| - 1].keys.value, st, verifies);
      if LinkedAt(chain, |chain| - 2, verifies) {
        WalkExact(upper, verifies);
      }
    }
  }

  /**
   Trust-chain soundness and completeness. A chain of any length is valid iff its last
   statement verifies under the trust anchor's key with its identifier and has not expired,
   and every other statement verifies under a key, found by its identifier, that the statement
   after it publishes.
   */
  lemma TrustChainExact(chain: seq<Statement>, anchors: seq<Jwk>, now: int, verifies: Verifies)
    ensures Validated(chain, anchors, now, verifies) == Valid <==>
            && chain != []
            && Linked(anchors, chain[|chain| - 1], verifies)
            && chain[|chain| - 1].exp.value >= now
            && AllLinked(chain, verifies)
  {
    if chain != [] && chain[|chain| - 1].keys.Some? {
      WalkExact(chain, verifies);
    }
  }

  // The lowest of the linked statements is the one at i + 1.
  ghost predicate FirstUnlinked(chain: seq<Statement>, i: int, verifies: Verifies) {
    && 0 <= i < |chain| - 1
    && !LinkedAt(chain, i, verifies)
    && forall j :: i < j < |chain| - 1 ==> LinkedAt(chain, j, verifies)
  }

  /**
   Why a chain is not valid, exactly. Validation raises when there is no statement, or the last one
   does not verify under a key of the anchor or has no expiry; an expired last statement makes the
   chain invalid; one without keys raises. Below it the first statement that is not linked decides:
   without a key for its identifier the chain is invalid, and anything else raises.
   */
  lemma {:induction false} VerdictExact(chain: seq<Statement>, anchors: seq<Jwk>, now: int, verifies: Verifies)
    ensures chain == [] ==> Validated(chain, anchors, now, verifies) == Raised
    ensures chain != [] ==>
              var last := chain[|chain| - 1];
              var jwk := FindJwk(anchors, last.kid);
              && (jwk.Err? ==> Validated(chain, anchors, now, verifies) == Raised)
              && (jwk.Ok? && !verifies(jwk.value, last) ==> Validated(chain, anchors, now, verifies) == Raised)
              && (last.exp.None? ==> Validated(chain, anchors, now, verifies) == Raised)
              && (jwk.Ok? && verifies(jwk.value, last) && last.exp.Some? ==>
                    && (last.exp.value < now ==> Validated(chain, anchors, now, verifies) == Invalid)
                    && (last.exp.value >= now && last.keys.None? ==> Validated(chain, anchors, now, verifies) == Raised)
                    && (last.exp.value >= now && last.keys.Some? ==>
                          forall i :: FirstUnlinked(chain, i, verifies) ==>
                            chain[i + 1].keys.Some?
                            && Validated(chain, anchors, now, verifies)
                            == if FindJwk(chain[i + 1].keys.value, chain[i].kid).Err? then Invalid else Raised))
  {
    if chain != [] && chain[|chain| - 1].keys.Some? {
      forall i | FirstUnlinked(chain, i, verifies)
        ensures chain[i + 1].keys.Some?
        ensures Walk(chain[..|chain| - 1], chain[|chain| - 1].keys.value, verifies)
                == if FindJwk(chain[i + 1].keys.value, chain[i].kid).Err? then Invalid else Raised
      {
        WalkStops(chain, i, verifies);
      }
    }
  }

  lemma {:induction false} WalkStops(chain: seq<Statement>, i: int, verifies: Verifies)
    requires chain != [] && chain[|chain| - 1].keys.Some? && FirstUnlinked(chain, i, verifies)
    ensures chain[i + 1].keys.Some?
    ensures Walk(chain[..|chain| - 1], chain[|chain| - 1].keys.value, verifies)
            == if FindJwk(chain[i + 1].keys.value, chain[i].kid).Err? then Invalid else Raised
    decreases |chain|
  {
    var upper := chain[..|chain| - 1];
    assert upper[|upper| - 1] == chain[|chain| - 2] && upper[..|upper| - 1] == chain[..|chain| - 2];
    if i < |chain| - 2 {
      assert LinkedAt(chain, |chain| - 2, verifies);
      forall j | 0 <= j < |upper| - 1 ensures LinkedAt(upper, j, verifies) == LinkedAt(chain, j, verifies) {
      }
      WalkStops(upper, i, verifies);
    }
  }

  /* Verifying a JWS. */

  // The lifetime claims, where present, against a clock reading.
  predicate InLifetime(st: Statement, now: int, tolerance: int) {
    && (st.iat.Some? ==> st.iat.value - tolerance <= now)
    && (st.exp.Some? ==> st.exp.value + tolerance > now)
    && (st.nbf.Some? ==> st.nbf.value - tolerance <= now)
  }

  // The signature, and then the lifetime at the time the statement is verified.
  function VerifyJws(signed: Verifies, clock: Statement -> int, tolerance: int): Verifies {
    (k, st) => signed(k, st) && InLifetime(st, clock(st), tolerance)
  }

  lemma LinkedIsAlive(keys: seq<Jwk>, st: Statement, signed: Verifies, clock: Statement -> int, tolerance: int)
    requires Linked(keys, st, VerifyJws(signed, clock, tolerance)) && tolerance <= clock(st)
    ensures st.exp.Some? && st.exp.value > 0
  {
    var jwk := FindJwk(keys, st.kid).value;
    assert VerifyJws(signed, clock, tolerance)(jwk, st) == (signed(jwk, st) && InLifetime(st, clock(st), tolerance));
  }

  // When every statement of a valid chain was verified, it was issued, not expired and not to be used
  // later, up to the tolerance.
  lemma ValidIsAlive(chain: seq<Statement>, anchors: seq<Jwk>, now: int, signed: Verifies, clock: Statement -> int, tolerance: int)
    requires Validated(chain, anchors, now, VerifyJws(signed, clock, tolerance)) == Valid
    ensures forall i :: 0 <= i < |chain| ==>
              && (chain[i].iat.Some? ==> chain[i].iat.value <= clock(chain[i]) + tolerance)
              && chain[i].exp.Some? && clock(chain[i]) - tolerance < chain[i].exp.value
              && (chain[i].nbf.Some? ==> chain[i].nbf.value <= clock(chain[i]) + tolerance)
  {
    var verifies := VerifyJws(signed, clock, tolerance);
    TrustChainExact(chain, anchors, now, verifies);
    forall i | 0 <= i < |chain| ensures chain[i].exp.Some? && InLifetime(chain[i], clock(chain[i]), tolerance) {
      var keys := anchors;
      if i < |chain| - 1 {
        assert LinkedAt(chain, i, verifies);
        keys := chain[i + 1].keys.value;
      }
      assert Linked(keys, chain[i], verifies);
      var jwk := FindJwk(keys, chain[i].kid).value;
      assert verifies(jwk, chain[i]) == (signed(jwk, chain[i]) && InLifetime(chain[i], clock(chain[i]), tolerance));
    }
  }

  /**
   The expiry of a valid chain is the smallest one in the chain, whatever the clock reads at each
   statement, as long as it is not within the tolerance of the epoch.
   */
  lemma ValidExpIsMinimum(chain: seq<Statement>, anchors: seq<Jwk>, now: int, signed: Verifies, clock: Statement -> int,
                          tolerance: int)
    requires forall st :: 0 <= tolerance <= clock(st)
    requires Validated(chain, anchors, now, VerifyJws(signed, clock, tolerance)) == Valid
    ensures Exps(chain) != [] && IsMinimum(RunningExp(Exps(chain)), Exps(chain))
  {
    var verifies := VerifyJws(signed, clock, tolerance);
    TrustChainExact(chain, anchors, now, verifies);
    forall i | 0 <= i < |chain| ensures chain[i].exp.Some? && chain[i].exp.value > 0 {
      if i < |chain| - 1 {
        assert LinkedAt(chain, i, verifies);
        LinkedIsAlive(chain[i + 1].keys.value, chain[i], signed, clock, tolerance);
      } else {
        LinkedIsAlive(anchors, chain[i], signed, clock, tolerance);
      }
    }
    PositiveExpIsMinimum(Exps(chain));
  }

  class StaticTrustChainValidator {
    var trustChain: seq<Statement>
    const trustAnchorJwks: seq<Jwk>
    var exp: int

    constructor (chain: seq<Statement>, anchors: seq<Jwk>)
      ensures trustChain == chain && trustAnchorJwks == anchors && exp == 0
    {
      trustChain, trustAnchorJwks, exp := chain, anchors, 0;
    }

    method UpdateExp(value: int)
      modifies this`exp
      ensures exp == SetExp(old(exp), value)
    {
      if exp == 0 || exp > value {
        exp := value;
      }
    }

    method Validate(now: int, verifies: Verifies) returns (verdict: Verdict)
      modifies this`exp
      ensures verdict == Validated(trustChain, trustAnchorJwks, now, verifies)
      ensures verdict == Valid ==> trustChain != [] && exp == RunningExp(Exps(trustChain))
    {
      if trustChain == [] {
        return Raised;
      }
      var n := |trustChain|;
      var last := trustChain[n - 1];
      var taJwk := FindJwkByKid(trustAnchorJwks, last.kid);
      if taJwk.Err? || !verifies(taJwk.value, last) || last.exp.None? {
        return Raised;
      }
      exp := last.exp.value;
      if exp < now {
        return Invalid;
      }
      if last.keys.None? {
        return Raised;
      }
      assert Exps(trustChain)[..1] == [exp];
      verdict := ValidateRest(last.keys.value, verifies);
    }

    // The loop over the statements below the last one.
    method ValidateRest(keys: seq<Jwk>, verifies: Verifies) returns (verdict: Verdict)
      requires trustChain != [] && [exp] == Exps(trustChain)[..1]
      modifies this`exp
      ensures verdict == Walk(trustChain[..|trustChain| - 1], keys, verifies)
      ensures verdict == Valid ==> exp == RunningExp(Exps(trustChain))
    {
      WalkFromIsWalk(trustChain, 1, keys, exp, verifies);
      var n, fedJwks, k := |trustChain|, keys, 1;
      ghost var goal := WalkFrom(trustChain, 1, keys, exp, verifies);
      while k < n
        invariant 1 <= k <= n
        invariant WalkFrom(trustChain, k, fedJwks, exp, verifies) == goal
      {
        var st := trustChain[n - 1 - k];
        var jwk := FindJwkByKid(fedJwks, st.kid);
        if jwk.Err? {
          return Invalid;
        }
        if !verifies(jwk.value, st) || st.keys.None? || st.exp.None? {
          return Raised;
        }
        fedJwks := st.keys.value;
        UpdateExp(st.exp.value);
        k := k + 1;
      }
      return Valid;
    }
  }

  // The loop when the k last statements are done: the verdict, and the running expiry at the end.
  function WalkFrom(chain: seq<Statement>, k: nat, keys: seq<Jwk>, exp: int, verifies: Verifies): (Verdict, int)
    requires k <= |chain|
    decreases |chain| - k
  {
    if k == |chain| then (Valid, exp)
    else
      var st := chain[|chain| - 1 - k];
      var jwk := FindJwk(keys, st.kid);
      if jwk.Err? then (Invalid, exp)
      else if !verifies(jwk.value, st) || st.keys.None? || st.exp.None? then (Raised, exp)
      else WalkFrom(chain, k + 1, st.keys.value, SetExp(exp, st.exp.value), verifies)
  }

  lemma {:induction false} WalkFromIsWalk(chain: seq<Statement>, k: nat, keys: seq<Jwk>, exp: int, verifies: Verifies)
    requires 0 < k <= |chain| && exp == RunningExp(Exps(chain)[..k])
    ensures var r := WalkFrom(chain, k, keys, exp, verifies);
            && r.0 == Walk(chain[..|chain| - k], keys, verifies)
            && (r.0 == Valid ==> r.1 == RunningExp(Exps(chain)))
    decreases |chain| - k
  {
    if k == |chain| {
      assert Exps(chain)[..k] == Exps(chain);
    } else {
      var st := chain[|chain| - 1 - k];
      LastOfPrefix(chain, |chain| - k);
      LastOfPrefix(Exps(chain), k + 1);
      var jwk := FindJwk(keys, st.kid);
      if jwk.Ok? && verifies(jwk.value, st) && st.keys.Some? && st.exp.Some? {
        WalkFromIsWalk(chain, k + 1, st.keys.value, SetExp(exp, st.exp.value), verifies);
      }
    }
  }

  lemma LastOfPrefix<T>(s: seq<T>, k: nat)
    requires 0 < k <= |s|
    ensures s[..k][..k - 1] == s[..k - 1] && s[..k][k - 1] == s[k - 1]
  {
  }
}
