/** What an issued object and an issued payload look like, member by member. */
module IssuedShape {
  import opened JsonData
  import opened Wrappers
  import opened Issuance
  import opened DigestLists
  import opened IssuedFacts
  import opened RoundTrip

  // The plain keys, each with its issued value, in the order of the claims.
  ghost predicate KeepsPlain(plain: seq<Member>, ms: seq<ClaimMember>, env: Env, n: nat)
    decreases |ms|
  {
    if ms == [] then plain == []
    else
      var next := IssueMember(ms[0], env, n).next;
      match ms[0].key
      case Name(name) =>
        plain != [] && plain[0] == Member(name, Issue(ms[0].value, env, n).out) && KeepsPlain(plain[1..], ms[1..], env, next)
      case SDKey(_) => KeepsPlain(plain, ms[1..], env, next)
  }

  lemma {:induction false} FieldsShape(ms: seq<ClaimMember>, env: Env, n: nat)
    ensures var f := IssueMembers(ms, env, n).out;
            KeepsPlain(f.plain, ms, env, n) && |f.digests| == |SdNames(ms)|
    decreases |ms|
  {
    if ms == [] {
    } else {
      var h := IssueMember(ms[0], env, n);
      var t := IssueMembers(ms[1..], env, h.next);
      FieldsShape(ms[1..], env, h.next);
      assert h.out.plain == [] ==> h.out.plain + t.out.plain == t.out.plain;
      assert h.out.plain != [] ==> (h.out.plain + t.out.plain)[1..] == t.out.plain;
    }
  }

  /**
   An issued object: its plain keys with their issued values, in order, and before them an _sd list
   with one digest for each SDObj key and with the decoys, in some order; there is none if there is
   neither an SDObj key nor a decoy. Every object draws no decoys, or from 2 to 5, and records them.
   */
  lemma {:induction false} ObjectShape(ms: seq<ClaimMember>, env: Env, n: nat)
    requires ValidEnv(env)
    ensures var i := IssueMembers(ms, env, n);
            var decoys := Decoys(i.next, env.decoyCount(i.next));
            var r := Issue(Dict(ms), env, n);
            && KeepsPlain(i.out.plain, ms, env, n)
            && |i.out.digests| == |SdNames(ms)|
            && (|decoys| == 0 || 2 <= |decoys| <= 5)
            && (forall k :: 0 <= k < |decoys| ==> decoys[k] == DecoyDigest(i.next + k))
            && r.decoys == i.decoys + decoys
            && r.out.JObj?
            && if SdNames(ms) == [] && decoys == [] then r.out.members == i.out.plain
               else
                 && r.out.members != []
                 && r.out.members[0].name == "_sd"
                 && r.out.members[0].value.JArr?
                 && multiset(r.out.members[0].value.items) == multiset(DigestList(i.out.digests + decoys))
                 && r.out.members[1..] == i.out.plain
  {
    var i := IssueMembers(ms, env, n);
    var decoys := Decoys(i.next, env.decoyCount(i.next));
    var all := i.out.digests + decoys;
    FieldsShape(ms, env, n);
    SameLength(env.order(all), all);
    SameDigestLists(env.order(all), all);
  }

  lemma SameLength<T>(a: seq<T>, b: seq<T>)
    requires multiset(a) == multiset(b)
    ensures |a| == |b|
  {
    assert |multiset(a)| == |multiset(b)|;
  }

  lemma {:induction false} SameDigestLists(a: seq<Text>, b: seq<Text>)
    requires multiset(a) == multiset(b)
    ensures multiset(DigestList(a)) == multiset(DigestList(b))
    decreases |a|
  {
    SameLength(a, b);
    if a == [] {
      assert b == [];
    } else {
      var t, rest := a[0], a[1..];
      assert a == [t] + rest;
      var before, after := SplitAt(t, rest, b);
      SameDigestLists(rest, before + after);
      assert DigestList(a) == [DigestAtom(t)] + DigestList(rest);
      assert DigestList(before + after) == DigestList(before) + DigestList(after);
      assert DigestList(b) == DigestList(before) + [DigestAtom(t)] + DigestList(after);
    }
  }

  /**
   An issued payload, read as a dict: it names sha-256 as the hash algorithm, holds the holder's key as
   confirmation if there is one, and otherwise is the issued claims.
   */
  lemma {:induction false} PayloadMembers(claims: seq<ClaimMember>, holderKey: Option<Jwk>, env: Env, n: nat)
    ensures var p, i := IssuePayload(claims, holderKey, env, n), Issue(Dict(claims), env, n);
            && p.out.JObj? && i.out.JObj?
            && p.disclosures == i.disclosures && p.decoys == i.decoys
            && Lookup(p.out.members, "_sd_alg") == Some(JAtom(Str(Lit("sha-256"))))
            && (holderKey.Some? ==> Lookup(p.out.members, "cnf") == Some(JObj([Member("jwk", holderKey.value)])))
            && (forall name :: name != "_sd_alg" && (name != "cnf" || holderKey.None?) ==>
                  Lookup(p.out.members, name) == Lookup(i.out.members, name))
  {
    var members := Issue(Dict(claims), env, n).out.members;
    var alg := JAtom(Str(Lit(HASH_ALG_NAME)));
    var withAlg := Put(members, DIGEST_ALG_KEY, alg);
    assert CNF[0] != DIGEST_ALG_KEY[0];
    forall name ensures Lookup(withAlg, name) == if name == DIGEST_ALG_KEY then Some(alg) else Lookup(members, name) {
      LookupPut(members, DIGEST_ALG_KEY, alg, name);
    }
    if holderKey.Some? {
      var cnf := CnfJson(holderKey.value);
      forall name ensures Lookup(Put(withAlg, CNF, cnf), name) == if name == CNF then Some(cnf) else Lookup(withAlg, name) {
        LookupPut(withAlg, CNF, cnf, name);
      }
    }
  }
}
