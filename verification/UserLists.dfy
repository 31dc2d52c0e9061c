/** A plain "_sd" key: which digests end up in the list, which do not, and whose they are. */
module UserLists {
  import opened JsonData
  import opened Wrappers
  import opened Issuance
  import opened RawIssuance
  import opened IssuedFacts
  import opened RoundTrip

  /* Whatever the claims, every disclosure has its own salt. */

  lemma {:induction false} RawFresh(c: Claim, env: Env, n: nat)
    requires Raw(c, env, n).Ok?
    ensures DisclosuresIn(Raw(c, env, n).value.disclosures, n, Raw(c, env, n).value.next)
    decreases c, 1
  {
    match c
    case Leaf(_) =>
    case SDObj(_) =>
    case List(items) => RawItemsFresh(items, env, Issued([], [], [], n), n);
    case Dict(ms) => RawMembersFresh(ms, env, Issued(EMPTY_DRAFT, [], [], n), n);
  }

  lemma {:induction false} RawItemFresh(c: Claim, env: Env, n: nat)
    requires RawItem(c, env, n).Ok?
    ensures DisclosuresIn(RawItem(c, env, n).value.disclosures, n, RawItem(c, env, n).value.next)
    decreases c, 2
  {
    if !c.SDObj? {
      RawFresh(c, env, n);
    } else {
      var i := Raw(c.value, env, n).value;
      RawFresh(c.value, env, n);
      DisclosuresConcat(i.disclosures, [ElementDisclosure(i.next, i.out)], n, i.next, i.next + 1);
    }
  }

  lemma {:induction false} RawItemsFresh(items: seq<Claim>, env: Env, acc: Issued<seq<Json>>, lo: nat)
    requires RawItems(items, env, acc).Ok? && DisclosuresIn(acc.disclosures, lo, acc.next)
    ensures DisclosuresIn(RawItems(items, env, acc).value.disclosures, lo, RawItems(items, env, acc).value.next)
    ensures |RawItems(items, env, acc).value.out| == |acc.out| + |items|
    decreases items, 0
  {
    if items == [] {
    } else {
      var i := RawItem(items[0], env, acc.next).value;
      RawItemFresh(items[0], env, acc.next);
      DisclosuresConcat(acc.disclosures, i.disclosures, lo, acc.next, i.next);
      RawItemsFresh(items[1..], env, ThenItems(acc, With(i, [i.out])), lo);
    }
  }

  lemma {:induction false} RawMembersFresh(ms: seq<ClaimMember>, env: Env, acc: Issued<Draft>, lo: nat)
    requires RawMembers(ms, env, acc).Ok? && DisclosuresIn(acc.disclosures, lo, acc.next)
    ensures DisclosuresIn(RawMembers(ms, env, acc).value.disclosures, lo, RawMembers(ms, env, acc).value.next)
    decreases ms, 0
  {
    if ms == [] {
    } else {
      var i := Raw(ms[0].value, env, acc.next).value;
      assert ms[0].value < Dict(ms);
      RawFresh(ms[0].value, env, acc.next);
      DisclosuresConcat(acc.disclosures, i.disclosures, lo, acc.next, i.next);
      AddedFresh(ms[0].key, i, acc, lo);
      RawMembersFresh(ms[1..], env, AddMember(ms[0].key, i, acc).value, lo);
    }
  }

  lemma {:induction false} AddedFresh(key: Key, i: Issued<Json>, acc: Issued<Draft>, lo: nat)
    requires DisclosuresIn(acc.disclosures + i.disclosures, lo, i.next) && AddMember(key, i, acc).Ok?
    ensures DisclosuresIn(AddMember(key, i, acc).value.disclosures, lo, AddMember(key, i, acc).value.next)
  {
    if key.SDKey? {
      var d := MemberDisclosure(i.next, key.name, i.out);
      DisclosuresConcat(acc.disclosures + i.disclosures, [d], lo, i.next, i.next + 1);
      assert acc.disclosures + (i.disclosures + [d]) == acc.disclosures + i.disclosures + [d];
    }
  }

  /* The members after a plain "_sd". */

  lemma {:induction false} RawMembersConcat(ms: seq<ClaimMember>, rest: seq<ClaimMember>, env: Env, acc: Issued<Draft>)
    ensures var first := RawMembers(ms, env, acc);
            RawMembers(ms + rest, env, acc) == if first.Err? then first else RawMembers(rest, env, first.value)
    decreases |ms|
  {
    if ms == [] {
      assert ms + rest == rest;
    } else {
      assert (ms + rest)[0] == ms[0] && (ms + rest)[1..] == ms[1..] + rest;
      var next := AddRaw(ms[0], env, acc);
      if next.Ok? {
        RawMembersConcat(ms[1..], rest, env, next.value);
      }
    }
  }

  // The digest of one of the disclosures, made for the key with a salt from lo on.
  ghost predicate StandsFor(t: Text, key: string, ds: seq<Disclosure>, lo: nat) {
    t.DigestOf? && t.disclosure in ds && t.disclosure.MemberDisclosure? && t.disclosure.key == key
    && t.disclosure.salt >= lo
  }

  ghost predicate StandFor(ts: seq<Text>, keys: seq<string>, ds: seq<Disclosure>, lo: nat) {
    |ts| == |keys| && forall i :: 0 <= i < |ts| ==> StandsFor(ts[i], keys[i], ds, lo)
  }

  // Between two states of the loop: the user's list stays, and the digests of the keys are appended.
  ghost predicate Appended(acc: Issued<Draft>, last: Issued<Draft>, keys: seq<string>) {
    && acc.next <= last.next
    && last.out.sd == acc.out.sd
    && acc.disclosures <= last.disclosures
    && acc.out.digests <= last.out.digests
    && StandFor(last.out.digests[|acc.out.digests|..], keys, last.disclosures[|acc.disclosures|..], acc.next)
  }

  lemma {:induction false} LaterMembers(ms: seq<ClaimMember>, env: Env, acc: Issued<Draft>)
    requires forall i :: 0 <= i < |ms| ==> ms[i].key != Name(SD_DIGESTS_KEY)
    requires RawMembers(ms, env, acc).Ok?
    ensures Appended(acc, RawMembers(ms, env, acc).value, SdNames(ms))
    decreases |ms|
  {
    if ms == [] {
    } else {
      var next := AddRaw(ms[0], env, acc).value;
      assert ms[..1] == [ms[0]];
      OneMember(ms[0], env, acc);
      LaterMembers(ms[1..], env, next);
      AppendedTwice(acc, next, RawMembers(ms, env, acc).value, SdNames(ms[..1]), SdNames(ms[1..]));
    }
  }

  lemma {:induction false} OneMember(member: ClaimMember, env: Env, acc: Issued<Draft>)
    requires member.key != Name(SD_DIGESTS_KEY) && AddRaw(member, env, acc).Ok?
    ensures Appended(acc, AddRaw(member, env, acc).value, SdNames([member]))
  {
    RawFresh(member.value, env, acc.next);
    assert [member][1..] == [];
  }

  lemma {:induction false} AppendedTwice(a: Issued<Draft>, b: Issued<Draft>, c: Issued<Draft>, front: seq<string>, back: seq<string>)
    requires Appended(a, b, front) && Appended(b, c, back)
    ensures Appended(a, c, front + back)
  {
    var ds := c.disclosures[|a.disclosures|..];
    assert ds == b.disclosures[|a.disclosures|..] + c.disclosures[|b.disclosures|..];
    var ts := c.out.digests[|a.out.digests|..];
    assert ts == b.out.digests[|a.out.digests|..] + c.out.digests[|b.out.digests|..];
  }

  /* The whole object. */

  // The members end up with one list, which has the user's elements and the digests in some order.
  ghost predicate HasMerged(members: seq<Member>, plain: seq<Member>, xs: seq<Json>, digests: seq<Text>) {
    if xs + DigestList(digests) == [] then members == plain
    else
      && members != []
      && members[0].name == SD_DIGESTS_KEY
      && members[0].value.JArr?
      && multiset(members[0].value.items) == multiset(xs + DigestList(digests))
      && members[1..] == plain
  }

  lemma {:induction false} FinishMerges(d: Draft, decoys: seq<Text>, env: Env)
    requires SortsDigests(env) && Finish(d, decoys, env).Ok? && d.sd.Some? && d.sd.value.JArr?
    ensures HasMerged(Finish(d, decoys, env).value, d.plain, d.sd.value.items, d.digests + decoys)
  {
  }

  // No digest of the disclosures is in the list.
  ghost predicate AreLost(ds: seq<Disclosure>, digests: seq<Text>) {
    forall d :: d in ds ==> DigestOf(d) !in digests
  }

  lemma {:induction false} EarlierAreLost(ds: seq<Disclosure>, hi: nat, ts: seq<Text>, keys: seq<string>, made: seq<Disclosure>, lo: nat,
                                          next: nat, count: nat)
    requires DisclosuresIn(ds, 0, hi) && StandFor(ts, keys, made, lo) && hi <= lo
    ensures AreLost(ds, ts + Decoys(next, count))
  {
    forall d | d in ds ensures DigestOf(d) !in ts + Decoys(next, count) {
      var i :| 0 <= i < |ds| && ds[i] == d;
      assert InRange(DigestOf(ds[i]), 0, hi);
    }
  }

  /**
   An object with a plain "_sd" key that holds a list: its one _sd list is a permutation of the
   list that is issued for the user's, the digests of the later SDObj keys, each of a disclosure
   made for that key, and the decoys. The earlier disclosures are handed out all the same, but
   the digest of none of them is among those.
   */
  lemma {:induction false} UserListIsMerged(before: seq<ClaimMember>, items: seq<Claim>, after: seq<ClaimMember>, env: Env, n: nat)
    requires SortsDigests(env) && forall i :: 0 <= i < |after| ==> after[i].key != Name(SD_DIGESTS_KEY)
    requires RawObject(before + [ClaimMember(Name(SD_DIGESTS_KEY), List(items))] + after, env, n).Ok?
    ensures var ms, start := before + [ClaimMember(Name(SD_DIGESTS_KEY), List(items))] + after, Issued(EMPTY_DRAFT, [], [], n);
            && RawMembers(before, env, start).Ok?
            && RawItems(items, env, Issued([], [], [], RawMembers(before, env, start).value.next)).Ok?
            && RawMembers(ms, env, start).Ok?
            && var first := RawMembers(before, env, start).value;
               var list := RawItems(items, env, Issued([], [], [], first.next)).value;
               var last := RawMembers(ms, env, start).value;
               var decoys := Decoys(last.next, env.decoyCount(last.next));
               var kept := first.disclosures + list.disclosures;
               && |list.out| == |items|
               && HasMerged(RawObject(ms, env, n).value.out, last.out.plain, list.out, last.out.digests + decoys)
               && kept <= last.disclosures == RawObject(ms, env, n).value.disclosures
               && StandFor(last.out.digests, SdNames(after), last.disclosures[|kept|..], list.next)
               && AreLost(first.disclosures, last.out.digests + decoys)
  {
    var sd := ClaimMember(Name(SD_DIGESTS_KEY), List(items));
    var ms, start := before + [sd] + after, Issued(EMPTY_DRAFT, [], [], n);
    RawMembersConcat(before + [sd], after, env, start);
    RawMembersConcat(before, [sd], env, start);
    var first := RawMembers(before, env, start).value;
    WithUserList(items, env, first);
    var second := AddRaw(sd, env, first).value;
    assert [sd][1..] == [] && RawMembers([sd], env, first) == Ok(second);
    LaterMembers(after, env, second);
    var last := RawMembers(ms, env, start).value;
    var count := env.decoyCount(last.next);
    FinishMerges(last.out, Decoys(last.next, count), env);
    RawMembersFresh(before, env, start, n);
    EarlierAreLost(first.disclosures, first.next, last.out.digests, SdNames(after), last.disclosures[|second.disclosures|..],
                   second.next, last.next, count);
  }

  // One turn of the loop for a plain "_sd" key that holds a list.
  lemma {:induction false} WithUserList(items: seq<Claim>, env: Env, acc: Issued<Draft>)
    requires AddRaw(ClaimMember(Name(SD_DIGESTS_KEY), List(items)), env, acc).Ok?
    ensures RawItems(items, env, Issued([], [], [], acc.next)).Ok?
    ensures var list := RawItems(items, env, Issued([], [], [], acc.next)).value;
            && |list.out| == |items| && acc.next <= list.next
            && AddRaw(ClaimMember(Name(SD_DIGESTS_KEY), List(items)), env, acc).value
               == Issued(Draft(acc.out.plain, Some(JArr(list.out)), []), acc.disclosures + list.disclosures,
                         acc.decoys + list.decoys, list.next)
  {
    RawItemsFresh(items, env, Issued([], [], [], acc.next), acc.next);
  }
}
