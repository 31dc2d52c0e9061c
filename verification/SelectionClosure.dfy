/** What a holder selects can always be reached from the payload. */
module SelectionClosure {
  import opened JsonData
  import opened Wrappers
  import opened Unpacking
  import opened Selection
  import opened Presentation

  // The digests that sit in j itself, not inside another disclosure.
  function Carried(j: Json): set<Text>
    decreases j, 0
  {
    match j
    case JAtom(_) => {}
    case JArr(items) => CarriedByItems(items)
    case JObj(ms) => CarriedByMembers(ms)
  }

  function CarriedByItem(j: Json): set<Text>
    decreases j, 1
  {
    if IsElementLeaf(j) then {LeafDigest(j)} else Carried(j)
  }

  function CarriedByItems(items: seq<Json>): set<Text>
    decreases items, 0
  {
    if items == [] then {} else CarriedByItem(items[0]) + CarriedByItems(items[1..])
  }

  function CarriedByMember(mem: Member): set<Text>
    decreases mem, 0
  {
    if mem.name == SD_DIGESTS_KEY then
      if mem.value.JArr? then CarriedByDigests(mem.value.items) else {}
    else Carried(mem.value)
  }

  function CarriedByMembers(ms: seq<Member>): set<Text>
    decreases ms, 0
  {
    if ms == [] then {} else CarriedByMember(ms[0]) + CarriedByMembers(ms[1..])
  }

  function CarriedByDigests(entries: seq<Json>): set<Text>
    decreases entries, 0
  {
    if entries == [] then {}
    else (if entries[0].JAtom? && entries[0].a.Str? then {entries[0].a.t} else {}) + CarriedByDigests(entries[1..])
  }

  predicate Holds(d: Disclosure, t: Text) {
    !d.Malformed? && t in Carried(d.value)
  }

  // The digest of s[i] is among the roots, or sits in a disclosure selected before it.
  ghost predicate Reached(s: seq<Disclosure>, i: nat, roots: set<Text>)
    requires i < |s|
  {
    DigestOf(s[i]) in roots || exists k :: 0 <= k < i && Holds(s[k], DigestOf(s[i]))
  }

  ghost predicate Anchored(s: seq<Disclosure>, roots: set<Text>, m: Mapping) {
    forall i :: 0 <= i < |s| ==> DigestOf(s[i]) in m && Reached(s, i, roots)
  }

  lemma ReachedShifted(s: seq<Disclosure>, t: seq<Disclosure>, i: nat, roots: set<Text>)
    requires i < |t| && Reached(t, i, roots)
    ensures DigestOf((s + t)[|s| + i]) in roots || Reached(s + t, |s| + i, {})
  {
    if DigestOf(t[i]) !in roots {
      var k :| 0 <= k < i && Holds(t[k], DigestOf(t[i]));
      assert Holds((s + t)[|s| + k], DigestOf(t[i]));
    }
  }

  lemma ReachedExtended(s: seq<Disclosure>, t: seq<Disclosure>, i: nat, roots: set<Text>)
    requires i < |s| && Reached(s, i, roots)
    ensures Reached(s + t, i, roots)
  {
    if DigestOf(s[i]) !in roots {
      var k :| 0 <= k < i && Holds(s[k], DigestOf(s[i]));
      assert Holds((s + t)[k], DigestOf(s[i]));
    }
  }

  lemma AnchoredConcat(s: seq<Disclosure>, t: seq<Disclosure>, a: set<Text>, b: set<Text>, m: Mapping)
    requires Anchored(s, a, m) && Anchored(t, b, m)
    ensures Anchored(s + t, a + b, m)
  {
    forall i | 0 <= i < |s + t| ensures DigestOf((s + t)[i]) in m && Reached(s + t, i, a + b) {
      if i < |s| {
        ReachedExtended(s, t, i, a);
      } else {
        ReachedShifted(s, t, i - |s|, b);
      }
    }
  }

  lemma AnchoredBelow(d: Disclosure, s: seq<Disclosure>, m: Mapping)
    requires !d.Malformed? && DigestOf(d) in m && Anchored(s, Carried(d.value), m)
    ensures Anchored([d] + s, {DigestOf(d)}, m)
  {
    var u := [d] + s;
    forall i | 0 <= i < |u| ensures DigestOf(u[i]) in m && Reached(u, i, {DigestOf(d)}) {
      if i > 0 {
        ReachedShifted([d], s, i - 1, Carried(d.value));
        assert DigestOf(u[i]) in Carried(d.value) ==> Holds(u[0], DigestOf(u[i]));
      }
    }
  }

  ghost predicate AnchoredIn(s: Selected, roots: set<Text>, m: Mapping) {
    s.Ok? ==> Anchored(s.value, roots, m)
  }

  lemma AnchoredThen(a: Selected, b: Selected, ra: set<Text>, rb: set<Text>, m: Mapping)
    requires AnchoredIn(a, ra, m) && AnchoredIn(b, rb, m)
    ensures AnchoredIn(Then(a, b), ra + rb, m)
  {
    if a.Ok? && b.Ok? {
      AnchoredConcat(a.value, b.value, ra, rb, m);
    }
  }

  /**
   For every payload, request and mapping: if the walk returns, each selected disclosure is
   one of the known ones, and its digest sits in the payload or in a disclosure selected
   earlier. A presentation never holds a disclosure whose parent is missing.
   */
  lemma {:induction false} SelectionIsAnchored(j: Json, r: Request, m: Mapping)
    requires Honest(m)
    ensures AnchoredIn(Select(j, r, m), Carried(j), m)
    decreases j, 0
  {
    match j
    case JAtom(_) =>
    case JArr(items) =>
      if !r.RNone? && FitsList(r) {
        ItemsAnchored(items, r, 0, m);
      }
    case JObj(ms) =>
      if !r.RNone? && FitsDict(r) {
        MembersAnchored(ms, r, m);
      }
  }

  lemma {:induction false} ItemsAnchored(items: seq<Json>, r: Request, i: nat, m: Mapping)
    requires Honest(m)
    ensures AnchoredIn(SelectItems(items, r, i, m), CarriedByItems(items), m)
    decreases items, 0
  {
    if items == [] {
    } else {
      ItemAnchored(items[0], At(r, i), m);
      ItemsAnchored(items[1..], r, i + 1, m);
      AnchoredThen(SelectItem(items[0], At(r, i), m), SelectItems(items[1..], r, i + 1, m), CarriedByItem(items[0]),
                   CarriedByItems(items[1..]), m);
    }
  }

  lemma {:induction false} ItemAnchored(j: Json, r: Request, m: Mapping)
    requires Honest(m)
    ensures AnchoredIn(SelectItem(j, r, m), CarriedByItem(j), m)
    decreases j, 1
  {
    if !IsElementLeaf(j) {
      SelectionIsAnchored(j, r, m);
    } else {
      var t := LeafDigest(j);
      if t in m && m[t].ElementDisclosure? && !Refuses(r) {
        SelectionIsAnchored(m[t].value, r, m);
        if Select(m[t].value, r, m).Ok? {
          AnchoredBelow(m[t], Select(m[t].value, r, m).value, m);
        }
      }
    }
  }

  lemma {:induction false} MembersAnchored(ms: seq<Member>, r: Request, m: Mapping)
    requires Honest(m)
    ensures AnchoredIn(SelectMembers(ms, r, m), CarriedByMembers(ms), m)
    decreases ms, 0
  {
    if ms == [] {
    } else {
      if ms[0].name == SD_DIGESTS_KEY {
        if ms[0].value.JArr? {
          DigestsAnchored(ms[0].value.items, r, m);
        }
      } else {
        SelectionIsAnchored(ms[0].value, Get(r, ms[0].name), m);
      }
      MembersAnchored(ms[1..], r, m);
      AnchoredThen(SelectMember(ms[0], r, m), SelectMembers(ms[1..], r, m), CarriedByMember(ms[0]),
                   CarriedByMembers(ms[1..]), m);
    }
  }

  lemma {:induction false} DigestsAnchored(entries: seq<Json>, r: Request, m: Mapping)
    requires Honest(m)
    ensures AnchoredIn(SelectDigests(entries, r, m), CarriedByDigests(entries), m)
    decreases entries, 0
  {
    if entries == [] {
    } else {
      var roots := if entries[0].JAtom? && entries[0].a.Str? then {entries[0].a.t} else {};
      DigestAnchored(entries[0], r, roots, m);
      DigestsAnchored(entries[1..], r, m);
      AnchoredThen(SelectDigest(entries[0], r, m), SelectDigests(entries[1..], r, m), roots,
                   CarriedByDigests(entries[1..]), m);
    }
  }

  lemma {:induction false} DigestAnchored(e: Json, r: Request, roots: set<Text>, m: Mapping)
    requires Honest(m)
    requires roots == if e.JAtom? && e.a.Str? then {e.a.t} else {}
    ensures AnchoredIn(SelectDigest(e, r, m), roots, m)
    decreases e, 1
  {
    if Discloses(e, m) {
      var d := Known(e, m);
      var below := Select(d.value, Get(r, d.key), m);
      SelectionIsAnchored(d.value, Get(r, d.key), m);
      if below.Ok? {
        if Truthy(Get(r, d.key)) {
          AnchoredBelow(d, below.value, m);
        } else {
          FalsySelectsNothing(d.value, Get(r, d.key), m);
          assert SelectDigest(e, r, m).value == [] + [];
        }
      }
    }
  }
}
