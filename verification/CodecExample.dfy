/**
 A codec that meets what the protocol asks of one: JSON and disclosures are countable, so they
 can be written without loss in the base64url alphabet.
 */
module CodecExample {
  import opened JsonData
  import opened Wrappers
  import opened Issuance
  import opened Wire
  import opened WireFormat
  import opened Protocol

  /* A tag for each constructor, numbers in unary, and a mark at the end of each list. */

  function WriteNat(n: nat): string {
    if n == 0 then "b" else "a" + WriteNat(n - 1)
  }

  function WriteInt(i: int): string {
    if i >= 0 then "p" + WriteNat(i) else "n" + WriteNat(-i)
  }

  function WriteString(s: string): string {
    if s == "" then "z" else "c" + (WriteNat(s[0] as int) + WriteString(s[1..]))
  }

  function WriteText(t: Text): string
    decreases t
  {
    match t
    case Lit(s) => "l" + WriteString(s)
    case DigestOf(d) => "d" + WriteDisclosure(d)
    case DecoyDigest(salt) => "y" + WriteNat(salt)
  }

  function WriteAtom(a: Atom): string
    decreases a
  {
    match a
    case Null => "u"
    case Bool(b) => if b then "t" else "f"
    case Num(mantissa, exponent) => "m" + (WriteInt(mantissa) + WriteInt(exponent))
    case Str(t) => "s" + WriteText(t)
  }

  function WriteJson(j: Json): string
    decreases j
  {
    match j
    case JAtom(a) => "A" + WriteAtom(a)
    case JArr(items) => "R" + WriteItems(items)
    case JObj(ms) => "O" + WriteMembers(ms)
  }

  function WriteItems(items: seq<Json>): string
    decreases items
  {
    if items == [] then "z" else "c" + (WriteJson(items[0]) + WriteItems(items[1..]))
  }

  function WriteMembers(ms: seq<Member>): string
    decreases ms
  {
    if ms == [] then "z" else "c" + (WriteString(ms[0].name) + (WriteJson(ms[0].value) + WriteMembers(ms[1..])))
  }

  function WriteDisclosure(d: Disclosure): string
    decreases d
  {
    match d
    case ElementDisclosure(salt, value) => "E" + (WriteNat(salt) + WriteJson(value))
    case MemberDisclosure(salt, key, value) => "M" + (WriteNat(salt) + (WriteString(key) + WriteJson(value)))
    case Malformed(raw) => "X" + WriteNat(raw)
  }

  /* Where a written value ends can be told from what follows it. */

  lemma SameTag(s: string, x: string, t: string, y: string)
    requires s != "" && t != "" && s + x == t + y
    ensures s[0] == t[0] && s[1..] + x == t[1..] + y
  {
    assert s + x == [s[0]] + (s[1..] + x) && t + y == [t[0]] + (t[1..] + y);
    assert (s + x)[0] == s[0] && (s + x)[1..] == s[1..] + x;
    assert (t + y)[0] == t[0] && (t + y)[1..] == t[1..] + y;
  }

  lemma Tagged(c: char, u: string)
    ensures ([c] + u)[0] == c && ([c] + u)[1..] == u
  {
  }

  lemma SameMark(s: string, x: string, y: string)
    requires s + x == s + y
    ensures x == y
  {
    assert (s + x)[|s|..] == x && (s + y)[|s|..] == y;
  }

  lemma Regrouped(p: string, q: string, x: string)
    ensures (p + q) + x == p + (q + x)
  {
  }

  lemma {:induction false} NatEnds(n: nat, x: string, n': nat, y: string)
    requires WriteNat(n) + x == WriteNat(n') + y
    ensures n == n' && x == y
  {
    SameTag(WriteNat(n), x, WriteNat(n'), y);
    if n == 0 {
      assert n' == 0;
      SameMark("b", x, y);
    } else {
      Tagged('a', WriteNat(n - 1));
      assert n' > 0;
      Tagged('a', WriteNat(n' - 1));
      NatEnds(n - 1, x, n' - 1, y);
    }
  }

  lemma IntEnds(i: int, x: string, i': int, y: string)
    requires WriteInt(i) + x == WriteInt(i') + y
    ensures i == i' && x == y
  {
    var n, n' := if i >= 0 then i else -i, if i' >= 0 then i' else -i';
    SameTag(WriteInt(i), x, WriteInt(i'), y);
    Tagged(if i >= 0 then 'p' else 'n', WriteNat(n));
    Tagged(if i' >= 0 then 'p' else 'n', WriteNat(n'));
    NatEnds(n, x, n', y);
  }

  lemma {:induction false} StringEnds(s: string, x: string, s': string, y: string)
    requires WriteString(s) + x == WriteString(s') + y
    ensures s == s' && x == y
    decreases |s|
  {
    SameTag(WriteString(s), x, WriteString(s'), y);
    if s == "" {
      assert s' == "";
      SameMark("z", x, y);
    } else {
      assert s' != "";
      var c, c' := WriteNat(s[0] as int), WriteNat(s'[0] as int);
      var rest, rest' := WriteString(s[1..]), WriteString(s'[1..]);
      Tagged('c', c + rest);
      Tagged('c', c' + rest');
      Regrouped(c, rest, x);
      Regrouped(c', rest', y);
      NatEnds(s[0] as int, rest + x, s'[0] as int, rest' + y);
      StringEnds(s[1..], x, s'[1..], y);
      assert s == [s[0]] + s[1..] && s' == [s'[0]] + s'[1..];
    }
  }

  lemma {:induction false} TextEnds(t: Text, x: string, t': Text, y: string)
    requires WriteText(t) + x == WriteText(t') + y
    ensures t == t' && x == y
    decreases t
  {
    SameTag(WriteText(t), x, WriteText(t'), y);
    match t
    case Lit(s) =>
      assert t'.Lit?;
      Tagged('l', WriteString(s));
      Tagged('l', WriteString(t'.s));
      StringEnds(s, x, t'.s, y);
    case DigestOf(d) =>
      assert t'.DigestOf?;
      Tagged('d', WriteDisclosure(d));
      Tagged('d', WriteDisclosure(t'.disclosure));
      DisclosureEnds(d, x, t'.disclosure, y);
    case DecoyDigest(salt) =>
      assert t'.DecoyDigest?;
      Tagged('y', WriteNat(salt));
      Tagged('y', WriteNat(t'.salt));
      NatEnds(salt, x, t'.salt, y);
  }

  lemma {:induction false} AtomEnds(a: Atom, x: string, a': Atom, y: string)
    requires WriteAtom(a) + x == WriteAtom(a') + y
    ensures a == a' && x == y
    decreases a
  {
    SameTag(WriteAtom(a), x, WriteAtom(a'), y);
    match a
    case Null =>
      assert a'.Null?;
      SameMark("u", x, y);
    case Bool(b) =>
      assert a'.Bool? && a'.b == b;
      SameMark(WriteAtom(a), x, y);
    case Num(k, e) =>
      assert a'.Num?;
      NumberEnds(k, e, x, a'.mantissa, a'.exponent, y);
    case Str(t) =>
      assert a'.Str?;
      Tagged('s', WriteText(t));
      Tagged('s', WriteText(a'.t));
      TextEnds(t, x, a'.t, y);
  }

  lemma NumberEnds(k: int, e: int, x: string, k': int, e': int, y: string)
    requires WriteAtom(Num(k, e)) + x == WriteAtom(Num(k', e')) + y
    ensures k == k' && e == e' && x == y
  {
    SameTag(WriteAtom(Num(k, e)), x, WriteAtom(Num(k', e')), y);
    Tagged('m', WriteInt(k) + WriteInt(e));
    Tagged('m', WriteInt(k') + WriteInt(e'));
    Regrouped(WriteInt(k), WriteInt(e), x);
    Regrouped(WriteInt(k'), WriteInt(e'), y);
    IntEnds(k, WriteInt(e) + x, k', WriteInt(e') + y);
    IntEnds(e, x, e', y);
  }

  lemma {:induction false} JsonEnds(j: Json, x: string, j': Json, y: string)
    requires WriteJson(j) + x == WriteJson(j') + y
    ensures j == j' && x == y
    decreases j
  {
    SameTag(WriteJson(j), x, WriteJson(j'), y);
    match j
    case JAtom(a) =>
      assert j'.JAtom?;
      Tagged('A', WriteAtom(a));
      Tagged('A', WriteAtom(j'.a));
      AtomEnds(a, x, j'.a, y);
    case JArr(items) =>
      assert j'.JArr?;
      Tagged('R', WriteItems(items));
      Tagged('R', WriteItems(j'.items));
      ItemsEnd(items, x, j'.items, y);
    case JObj(ms) =>
      assert j'.JObj?;
      Tagged('O', WriteMembers(ms));
      Tagged('O', WriteMembers(j'.members));
      MembersEnd(ms, x, j'.members, y);
  }

  lemma {:induction false} ItemsEnd(items: seq<Json>, x: string, items': seq<Json>, y: string)
    requires WriteItems(items) + x == WriteItems(items') + y
    ensures items == items' && x == y
    decreases items
  {
    SameTag(WriteItems(items), x, WriteItems(items'), y);
    if items == [] {
      assert items' == [];
      SameMark("z", x, y);
    } else {
      assert items' != [];
      var h, h' := WriteJson(items[0]), WriteJson(items'[0]);
      var rest, rest' := WriteItems(items[1..]), WriteItems(items'[1..]);
      Tagged('c', h + rest);
      Tagged('c', h' + rest');
      Regrouped(h, rest, x);
      Regrouped(h', rest', y);
      JsonEnds(items[0], rest + x, items'[0], rest' + y);
      ItemsEnd(items[1..], x, items'[1..], y);
      assert items == [items[0]] + items[1..] && items' == [items'[0]] + items'[1..];
    }
  }

  lemma {:induction false} MembersEnd(ms: seq<Member>, x: string, ms': seq<Member>, y: string)
    requires WriteMembers(ms) + x == WriteMembers(ms') + y
    ensures ms == ms' && x == y
    decreases ms
  {
    SameTag(WriteMembers(ms), x, WriteMembers(ms'), y);
    if ms == [] {
      assert ms' == [];
      SameMark("z", x, y);
    } else {
      assert ms' != [];
      var name, name' := WriteString(ms[0].name), WriteString(ms'[0].name);
      var value, value' := WriteJson(ms[0].value), WriteJson(ms'[0].value);
      var rest, rest' := WriteMembers(ms[1..]), WriteMembers(ms'[1..]);
      Tagged('c', name + (value + rest));
      Tagged('c', name' + (value' + rest'));
      Three(name, value, rest, x);
      Three(name', value', rest', y);
      StringEnds(ms[0].name, value + (rest + x), ms'[0].name, value' + (rest' + y));
      JsonEnds(ms[0].value, rest + x, ms'[0].value, rest' + y);
      MembersEnd(ms[1..], x, ms'[1..], y);
      assert ms == [ms[0]] + ms[1..] && ms' == [ms'[0]] + ms'[1..];
    }
  }

  lemma Three(p: string, q: string, r: string, x: string)
    ensures (p + (q + r)) + x == p + (q + (r + x))
  {
  }

  lemma {:induction false} DisclosureEnds(d: Disclosure, x: string, d': Disclosure, y: string)
    requires WriteDisclosure(d) + x == WriteDisclosure(d') + y
    ensures d == d' && x == y
    decreases d
  {
    SameTag(WriteDisclosure(d), x, WriteDisclosure(d'), y);
    match d
    case ElementDisclosure(salt, value) =>
      assert d'.ElementDisclosure?;
      Tagged('E', WriteNat(salt) + WriteJson(value));
      Tagged('E', WriteNat(d'.salt) + WriteJson(d'.value));
      Regrouped(WriteNat(salt), WriteJson(value), x);
      Regrouped(WriteNat(d'.salt), WriteJson(d'.value), y);
      NatEnds(salt, WriteJson(value) + x, d'.salt, WriteJson(d'.value) + y);
      JsonEnds(value, x, d'.value, y);
    case MemberDisclosure(salt, key, value) =>
      assert d'.MemberDisclosure?;
      Tagged('M', WriteNat(salt) + (WriteString(key) + WriteJson(value)));
      Tagged('M', WriteNat(d'.salt) + (WriteString(d'.key) + WriteJson(d'.value)));
      Three(WriteNat(salt), WriteString(key), WriteJson(value), x);
      Three(WriteNat(d'.salt), WriteString(d'.key), WriteJson(d'.value), y);
      NatEnds(salt, WriteString(key) + (WriteJson(value) + x), d'.salt, WriteString(d'.key) + (WriteJson(d'.value) + y));
      StringEnds(key, WriteJson(value) + x, d'.key, WriteJson(d'.value) + y);
      JsonEnds(value, x, d'.value, y);
    case Malformed(raw) =>
      assert d'.Malformed?;
      Tagged('X', WriteNat(raw));
      Tagged('X', WriteNat(d'.raw));
      NatEnds(raw, x, d'.raw, y);
  }

  /* Everything is written in the alphabet. */

  lemma {:induction false} NatAlphabet(n: nat)
    ensures IsSegment(WriteNat(n))
  {
    if n == 0 {
    } else {
      NatAlphabet(n - 1);
    }
  }

  lemma {:induction false} StringAlphabet(s: string)
    ensures IsSegment(WriteString(s))
    decreases |s|
  {
    if s == "" {
    } else {
      NatAlphabet(s[0] as int);
      StringAlphabet(s[1..]);
    }
  }

  lemma {:induction false} TextAlphabet(t: Text)
    ensures IsSegment(WriteText(t))
    decreases t
  {
    match t
    case Lit(s) => StringAlphabet(s);
    case DigestOf(d) => DisclosureAlphabet(d);
    case DecoyDigest(salt) => NatAlphabet(salt);
  }

  lemma {:induction false} JsonAlphabet(j: Json)
    ensures IsSegment(WriteJson(j))
    decreases j
  {
    match j
    case JAtom(a) =>
      if a.Str? {
        TextAlphabet(a.t);
      } else if a.Num? {
        NatAlphabet(if a.mantissa >= 0 then a.mantissa else -a.mantissa);
        NatAlphabet(if a.exponent >= 0 then a.exponent else -a.exponent);
      }
    case JArr(items) => ItemsAlphabet(items);
    case JObj(ms) => MembersAlphabet(ms);
  }

  lemma {:induction false} ItemsAlphabet(items: seq<Json>)
    ensures IsSegment(WriteItems(items))
    decreases items
  {
    if items == [] {
    } else {
      JsonAlphabet(items[0]);
      ItemsAlphabet(items[1..]);
    }
  }

  lemma {:induction false} MembersAlphabet(ms: seq<Member>)
    ensures IsSegment(WriteMembers(ms))
    decreases ms
  {
    if ms == [] {
    } else {
      StringAlphabet(ms[0].name);
      JsonAlphabet(ms[0].value);
      MembersAlphabet(ms[1..]);
    }
  }

  lemma {:induction false} DisclosureAlphabet(d: Disclosure)
    ensures IsSegment(WriteDisclosure(d))
    decreases d
  {
    match d
    case ElementDisclosure(salt, value) =>
      NatAlphabet(salt);
      JsonAlphabet(value);
    case MemberDisclosure(salt, key, value) =>
      NatAlphabet(salt);
      StringAlphabet(key);
      JsonAlphabet(value);
    case Malformed(raw) => NatAlphabet(raw);
  }

  /* The codec. */

  ghost function ReadDisclosure(s: string): (d: Disclosure)
    ensures (exists e :: WriteDisclosure(e) == s) ==> WriteDisclosure(d) == s
  {
    if e :| WriteDisclosure(e) == s then e else Malformed(0)
  }

  const TAIL := ".a.a"

  ghost function ReadJwt(s: string): (j: Json)
    ensures (exists k :: WriteJson(k) + TAIL == s) ==> WriteJson(j) + TAIL == s
  {
    if k :| WriteJson(k) + TAIL == s then k else JAtom(Null)
  }

  ghost function ExampleCodec(hash: string -> string): Codec {
    Codec(d => WriteDisclosure(d), s => ReadDisclosure(s), j => WriteJson(j) + TAIL, s => ReadJwt(s), hash)
  }

  // What the protocol asks of a codec can be met, with any hash.
  lemma CodecExists(hash: string -> string)
    ensures ValidCodec(ExampleCodec(hash))
  {
    forall d: Disclosure ensures ReadDisclosure(WriteDisclosure(d)) == d && IsSegment(WriteDisclosure(d)) {
      DisclosureEnds(ReadDisclosure(WriteDisclosure(d)), "", d, "");
      DisclosureAlphabet(d);
    }
    forall j: Json ensures ReadJwt(WriteJson(j) + TAIL) == j && IsJwt(WriteJson(j) + TAIL) {
      JsonEnds(ReadJwt(WriteJson(j) + TAIL), TAIL, j, TAIL);
      WrittenJwt(j);
    }
  }

  lemma WrittenJwt(j: Json)
    ensures IsJwt(WriteJson(j) + TAIL)
  {
    JsonAlphabet(j);
    SegmentsAreSeparate(WriteJson(j));
    SegmentsAreSeparate("a");
    var parts := [WriteJson(j), "a", "a"];
    JoinThree(WriteJson(j), "a", "a");
    assert WriteJson(j) + TAIL == WriteJson(j) + [DOT] + "a" + [DOT] + "a";
    Sections(WriteJson(j), "a", "a");
  }

  /* A key-binding JWT that holds the digest. */

  function SignDigest(h: string): string {
    WriteJson(JAtom(Str(Lit(h)))) + TAIL
  }

  ghost function DigestIn(s: string): (h: Option<string>)
    ensures (exists k :: SignDigest(k) == s) ==> h.Some? && SignDigest(h.value) == s
  {
    if k :| SignDigest(k) == s then Some(k) else None
  }

  // What the protocol asks of an honest holder's key binding can be met, too.
  lemma SignerExists(h: string)
    ensures IsJwt(SignDigest(h)) && DigestIn(SignDigest(h)) == Some(h)
    ensures DigestIn("") == None
  {
    assert forall k: string :: SignDigest(k) != "";
    var k := DigestIn(SignDigest(h)).value;
    JsonEnds(JAtom(Str(Lit(k))), TAIL, JAtom(Str(Lit(h))), TAIL);
    WrittenJwt(JAtom(Str(Lit(h))));
  }

  /* An issuer's environment. */

  function ExampleEnv(count: nat): Env {
    Env(ts => ts, n => count, xs => Some(xs))
  }

  // What is asked of an issuer's environment can be met, without decoys and with any number in range.
  lemma EnvExists(count: nat)
    requires count == 0 || DECOY_MIN_ELEMENTS <= count <= DECOY_MAX_ELEMENTS
    ensures SortsDigests(ExampleEnv(count)) && (HasDecoys(ExampleEnv(count)) <==> count > 0)
  {
    if count > 0 {
      assert ExampleEnv(count).decoyCount(0) > 0;
    }
  }
}
