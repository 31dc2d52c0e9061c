/** The order of the digests in an _sd list does not matter. */
module DigestLists {
  import opened JsonData
  import opened Wrappers
  import opened Sequences
  import opened Unpacking
  import opened Issuance
  import opened Selection

  function VisitedTexts(ts: seq<Text>, m: Mapping): seq<Atom>
    requires Honest(m)
  {
    VisitedDigests(DigestList(ts), m)
  }

  function NamesOfTexts(ts: seq<Text>, m: Mapping): seq<string>
    requires Honest(m)
  {
    DisclosedNames(DigestList(ts), m)
  }

  function ExpandTexts(ts: seq<Text>, m: Mapping): map<string, Value>
    requires Honest(m)
  {
    ExpandDigests(DigestList(ts), m)
  }

  function SelectTexts(ts: seq<Text>, r: Request, m: Mapping): Selected
    requires Honest(m)
  {
    SelectDigests(DigestList(ts), r, m)
  }

  function NameOfText(t: Text, m: Mapping): seq<string>
    requires Honest(m)
  {
    if Discloses(DigestAtom(t), m) then [Known(DigestAtom(t), m).key] else []
  }

  function ExpandText(t: Text, m: Mapping): map<string, Value>
    requires Honest(m)
  {
    if Discloses(DigestAtom(t), m)
    then map[Known(DigestAtom(t), m).key := Expand(Known(DigestAtom(t), m).value, m)]
    else map[]
  }

  lemma DigestListCons(t: Text, ts: seq<Text>)
    ensures DigestList([t] + ts) == [DigestAtom(t)] + DigestList(ts)
    ensures DigestList([t] + ts)[0] == DigestAtom(t) && DigestList([t] + ts)[1..] == DigestList(ts)
  {
    assert forall i :: 0 <= i < |ts| ==> ([t] + ts)[i + 1] == ts[i];
  }

  lemma TextsCons(t: Text, ts: seq<Text>, m: Mapping, r: Request)
    requires Honest(m)
    ensures VisitedTexts([t] + ts, m) == VisitedDigest(DigestAtom(t), m) + VisitedTexts(ts, m)
    ensures NamesOfTexts([t] + ts, m) == NameOfText(t, m) + NamesOfTexts(ts, m)
    ensures ExpandTexts([t] + ts, m) == ExpandText(t, m) + ExpandTexts(ts, m)
    ensures SelectTexts([t] + ts, r, m) == Then(SelectDigest(DigestAtom(t), r, m), SelectTexts(ts, r, m))
  {
    DigestListCons(t, ts);
    assert map[] + ExpandTexts(ts, m) == ExpandTexts(ts, m);
  }

  lemma {:induction false} ExpandTextsKeys(ts: seq<Text>, m: Mapping)
    requires Honest(m)
    ensures ExpandTexts(ts, m).Keys == Elements(NamesOfTexts(ts, m))
    decreases |ts|
  {
    if ts == [] {
    } else {
      assert ts == [ts[0]] + ts[1..];
      TextsCons(ts[0], ts[1..], m, RNone);
      ExpandTextsKeys(ts[1..], m);
    }
  }

  // Results that agree up to the order of what they select.
  ghost predicate SameSelection(a: Selected, b: Selected) {
    (a.Ok? <==> b.Ok?) && (a.Ok? ==> multiset(a.value) == multiset(b.value))
  }

  lemma ThenSame(a: Selected, b: Selected, a': Selected, b': Selected)
    requires SameSelection(a, a') && SameSelection(b, b')
    ensures SameSelection(Then(a, b), Then(a', b'))
    ensures SameSelection(Then(a, b), Then(b', a'))
  {
  }

  // Everything read off a list of digests agrees, up to order, for ts and us.
  ghost predicate Alike(ts: seq<Text>, us: seq<Text>, m: Mapping, r: Request)
    requires Honest(m)
  {
    && multiset(VisitedTexts(ts, m)) == multiset(VisitedTexts(us, m))
    && multiset(NamesOfTexts(ts, m)) == multiset(NamesOfTexts(us, m))
    && (Fresh({}, NamesOfTexts(ts, m)) ==> ExpandTexts(ts, m) == ExpandTexts(us, m))
    && SameSelection(SelectTexts(ts, r, m), SelectTexts(us, r, m))
  }

  lemma AlikeCons(t: Text, ts: seq<Text>, us: seq<Text>, m: Mapping, r: Request)
    requires Honest(m) && Alike(ts, us, m, r)
    ensures Alike([t] + ts, [t] + us, m, r)
  {
    TextsCons(t, ts, m, r);
    TextsCons(t, us, m, r);
    if Fresh({}, NamesOfTexts([t] + ts, m)) {
      FreshConcat({}, NameOfText(t, m), NamesOfTexts(ts, m));
      assert Fresh({}, NamesOfTexts(ts, m));
    }
    ThenSame(SelectDigest(DigestAtom(t), r, m), SelectTexts(ts, r, m), SelectDigest(DigestAtom(t), r, m), SelectTexts(us, r, m));
  }

  lemma AlikeSwap(t: Text, u: Text, ts: seq<Text>, m: Mapping, r: Request)
    requires Honest(m)
    ensures Alike([t] + ([u] + ts), [u] + ([t] + ts), m, r)
  {
    TextsCons(t, [u] + ts, m, r);
    TextsCons(u, ts, m, r);
    TextsCons(u, [t] + ts, m, r);
    TextsCons(t, ts, m, r);
    SwapFronts(VisitedDigest(DigestAtom(t), m), VisitedDigest(DigestAtom(u), m), VisitedTexts(ts, m));
    SwapFronts(NameOfText(t, m), NameOfText(u, m), NamesOfTexts(ts, m));
    if Fresh({}, NamesOfTexts([t] + ([u] + ts), m)) {
      SwapExpansions(t, u, ts, m);
    }
    SwapSelections(SelectDigest(DigestAtom(t), r, m), SelectDigest(DigestAtom(u), r, m), SelectTexts(ts, r, m));
  }

  lemma SwapFronts<T>(a: seq<T>, b: seq<T>, c: seq<T>)
    ensures multiset(a + (b + c)) == multiset(b + (a + c))
  {
  }

  lemma SwapExpansions(t: Text, u: Text, ts: seq<Text>, m: Mapping)
    requires Honest(m)
    requires Fresh({}, NameOfText(t, m) + (NameOfText(u, m) + NamesOfTexts(ts, m)))
    ensures ExpandText(t, m) + (ExpandText(u, m) + ExpandTexts(ts, m)) ==
            ExpandText(u, m) + (ExpandText(t, m) + ExpandTexts(ts, m))
  {
    var names := NameOfText(t, m) + (NameOfText(u, m) + NamesOfTexts(ts, m));
    if Discloses(DigestAtom(t), m) && Discloses(DigestAtom(u), m) {
      assert names[0] != names[1];
    }
  }

  lemma SwapSelections(a: Selected, b: Selected, c: Selected)
    ensures SameSelection(Then(a, Then(b, c)), Then(b, Then(a, c)))
  {
    if a.Ok? && b.Ok? && c.Ok? {
      assert multiset(a.value + (b.value + c.value)) == multiset(b.value + (a.value + c.value));
    }
  }

  lemma AlikeTransitive(ts: seq<Text>, us: seq<Text>, vs: seq<Text>, m: Mapping, r: Request)
    requires Honest(m) && Alike(ts, us, m, r) && Alike(us, vs, m, r)
    ensures Alike(ts, vs, m, r)
  {
    if Fresh({}, NamesOfTexts(ts, m)) {
      FreshSmaller({}, NamesOfTexts(us, m), NamesOfTexts(ts, m));
    }
  }

  lemma {:induction false} MoveToFront(before: seq<Text>, t: Text, after: seq<Text>, m: Mapping, r: Request)
    requires Honest(m)
    ensures Alike([t] + (before + after), before + [t] + after, m, r)
    decreases |before|
  {
    if before == [] {
      assert before + [t] + after == [t] + (before + after);
    } else {
      var b, rest := before[0], before[1..];
      assert before == [b] + rest;
      MoveToFront(rest, t, after, m, r);
      AlikeCons(b, [t] + (rest + after), rest + [t] + after, m, r);
      AlikeSwap(t, b, rest + after, m, r);
      FrontShapes(b, rest, t, after);
      AlikeTransitive([t] + (before + after), [b] + ([t] + (rest + after)), before + [t] + after, m, r);
    }
  }

  lemma FrontShapes<T>(b: T, rest: seq<T>, t: T, after: seq<T>)
    ensures [t] + (([b] + rest) + after) == [t] + ([b] + (rest + after))
    ensures ([b] + rest) + [t] + after == [b] + (rest + [t] + after)
  {
  }

  /**
   For every permutation of an _sd list: the digests visited and the names disclosed are the
   same up to order, so is the holder's selection, which is made or refused alike, and if the
   names are distinct the disclosed members are equal.
   */
  lemma {:induction false} PermutedDigests(ts: seq<Text>, us: seq<Text>, m: Mapping, r: Request)
    requires Honest(m) && multiset(ts) == multiset(us)
    ensures Alike(ts, us, m, r)
    decreases |ts|
  {
    if ts == [] {
      assert |multiset(us)| == 0;
    } else {
      var t, rest := ts[0], ts[1..];
      assert ts == [t] + rest;
      var before, after := SplitAt(t, rest, us);
      PermutedDigests(rest, before + after, m, r);
      AlikeCons(t, rest, before + after, m, r);
      MoveToFront(before, t, after, m, r);
      AlikeTransitive(ts, [t] + (before + after), us, m, r);
    }
  }

  // Where a permutation of [t] + rest has t.
  lemma SplitAt<T>(t: T, rest: seq<T>, us: seq<T>) returns (before: seq<T>, after: seq<T>)
    requires multiset([t] + rest) == multiset(us)
    ensures us == before + [t] + after && multiset(before + after) == multiset(rest)
  {
    assert t in multiset(us);
    var i :| 0 <= i < |us| && us[i] == t;
    before, after := us[..i], us[i + 1..];
    assert us == before + [t] + after;
    assert multiset([t] + rest) == multiset{t} + multiset(rest);
    assert multiset(us) == multiset(before) + multiset{t} + multiset(after);
    assert multiset(before + after) == multiset(us) - multiset{t};
  }

  lemma {:induction false} VisitedTextsConcat(ts: seq<Text>, us: seq<Text>, m: Mapping)
    requires Honest(m)
    ensures VisitedTexts(ts + us, m) == VisitedTexts(ts, m) + VisitedTexts(us, m)
    decreases |ts|
  {
    if ts == [] {
      assert ts + us == us;
    } else {
      assert ts == [ts[0]] + ts[1..] && ts + us == [ts[0]] + (ts[1..] + us);
      VisitedTextsConcat(ts[1..], us, m);
      TextsCons(ts[0], ts[1..], m, RNone);
      TextsCons(ts[0], ts[1..] + us, m, RNone);
    }
  }

  lemma {:induction false} NamesOfTextsConcat(ts: seq<Text>, us: seq<Text>, m: Mapping)
    requires Honest(m)
    ensures NamesOfTexts(ts + us, m) == NamesOfTexts(ts, m) + NamesOfTexts(us, m)
    decreases |ts|
  {
    if ts == [] {
      assert ts + us == us;
    } else {
      assert ts == [ts[0]] + ts[1..] && ts + us == [ts[0]] + (ts[1..] + us);
      NamesOfTextsConcat(ts[1..], us, m);
      TextsCons(ts[0], ts[1..], m, RNone);
      TextsCons(ts[0], ts[1..] + us, m, RNone);
    }
  }

  // Decoys disclose nothing and select nothing.
  lemma {:induction false} DecoysAreInert(ts: seq<Text>, n: nat, count: nat, m: Mapping, r: Request)
    requires Honest(m)
    ensures NamesOfTexts(ts + Decoys(n, count), m) == NamesOfTexts(ts, m)
    ensures ExpandTexts(ts + Decoys(n, count), m) == ExpandTexts(ts, m)
    ensures SelectTexts(ts + Decoys(n, count), r, m) == SelectTexts(ts, r, m)
    decreases |ts|, count
  {
    if ts != [] {
      assert ts == [ts[0]] + ts[1..] && ts + Decoys(n, count) == [ts[0]] + (ts[1..] + Decoys(n, count));
      DecoysAreInert(ts[1..], n, count, m, r);
      TextsCons(ts[0], ts[1..], m, r);
      TextsCons(ts[0], ts[1..] + Decoys(n, count), m, r);
    } else if count > 0 {
      assert [] + Decoys(n + 1, count - 1) == Decoys(n + 1, count - 1);
      assert ts + Decoys(n, count) == [DecoyDigest(n)] + Decoys(n + 1, count - 1);
      TextsCons(DecoyDigest(n), Decoys(n + 1, count - 1), m, r);
      DecoysAreInert([], n + 1, count - 1, m, r);
    } else {
      assert ts + Decoys(n, count) == ts;
    }
  }

  lemma {:induction false} VisitedDecoys(n: nat, count: nat, m: Mapping)
    requires Honest(m)
    ensures VisitedTexts(Decoys(n, count), m) == seq(count, i requires 0 <= i < count => Str(DecoyDigest(n + i)))
    decreases count
  {
    if count > 0 {
      assert Decoys(n, count) == [DecoyDigest(n)] + Decoys(n + 1, count - 1);
      TextsCons(DecoyDigest(n), Decoys(n + 1, count - 1), m, RNone);
      VisitedDecoys(n + 1, count - 1, m);
    }
  }
}
