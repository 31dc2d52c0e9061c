/** The regular expression that recognises an SD-JWT, and what it says about the parts. */
module WireFormat {
  import opened Wrappers
  import opened Wire

  // Regular expressions, with the operators the pattern uses.
  datatype Regexp = Base64Url | Character(c: char) | Cat(left: Regexp, right: Regexp) | Star(body: Regexp)

  predicate IsBase64Url(c: char) {
    'a' <= c <= 'z' || 'A' <= c <= 'Z' || '0' <= c <= '9' || c == '-' || c == '_'
  }

  ghost predicate Matches(r: Regexp, s: string)
    decreases r, |s|
  {
    match r
    case Base64Url => |s| == 1 && IsBase64Url(s[0])
    case Character(c) => s == [c]
    case Cat(left, right) => exists i :: 0 <= i <= |s| && Matches(left, s[..i]) && Matches(right, s[i..])
    case Star(body) => s == "" || exists i :: 0 < i <= |s| && Matches(body, s[..i]) && Matches(r, s[i..])
  }

  function Plus(r: Regexp): Regexp {
    Cat(r, Star(r))
  }

  const SEGMENT: Regexp := Plus(Base64Url)
  const JWT: Regexp := Cat(SEGMENT, Cat(Character(DOT), Cat(SEGMENT, Cat(Character(DOT), SEGMENT))))
  const DISCLOSURE: Regexp := Cat(Character(SEPARATOR), SEGMENT)

  // ^(JWT)(~SEGMENT)*(~)(JWT)*$ without the anchors.
  const SD_JWT: Regexp := Cat(JWT, Cat(Star(DISCLOSURE), Cat(Character(SEPARATOR), Star(JWT))))

  // "$" also matches before a final newline.
  ghost predicate IsSdJwtFormat(s: string) {
    || Matches(SD_JWT, s)
    || (s != "" && s[|s| - 1] == '\n' && Matches(SD_JWT, s[..|s| - 1]))
  }

  /* The languages of the parts. */

  predicate AllBase64Url(s: string) {
    forall i :: 0 <= i < |s| ==> IsBase64Url(s[i])
  }

  predicate IsSegment(s: string) {
    s != "" && AllBase64Url(s)
  }

  predicate AreSegments(parts: seq<string>) {
    forall i :: 0 <= i < |parts| ==> IsSegment(parts[i])
  }

  // Three segments separated by dots.
  predicate IsJwt(s: string) {
    |Split(DOT, s)| == 3 && AreSegments(Split(DOT, s))
  }

  lemma MatchesCat(left: Regexp, right: Regexp, s: string, t: string)
    requires Matches(left, s) && Matches(right, t)
    ensures Matches(Cat(left, right), s + t)
  {
    var u := s + t;
    assert u[..|s|] == s && u[|s|..] == t;
  }

  lemma SplitCat(left: Regexp, right: Regexp, s: string) returns (a: string, b: string)
    requires Matches(Cat(left, right), s)
    ensures s == a + b && Matches(left, a) && Matches(right, b)
  {
    var i :| 0 <= i <= |s| && Matches(left, s[..i]) && Matches(right, s[i..]);
    a, b := s[..i], s[i..];
  }

  lemma MatchesStar(body: Regexp, s: string, t: string)
    requires s != "" && Matches(body, s) && Matches(Star(body), t)
    ensures Matches(Star(body), s + t)
  {
    var u := s + t;
    assert u[..|s|] == s && u[|s|..] == t;
  }

  lemma {:induction false} SegmentChars(s: string)
    ensures Matches(Star(Base64Url), s) <==> AllBase64Url(s)
    decreases |s|
  {
    if s == "" {
    } else {
      SegmentChars(s[1..]);
      assert s == s[..1] + s[1..];
      if AllBase64Url(s) {
        MatchesStar(Base64Url, s[..1], s[1..]);
      }
      if Matches(Star(Base64Url), s) {
        var i :| 0 < i <= |s| && Matches(Base64Url, s[..i]) && Matches(Star(Base64Url), s[i..]);
        assert i == 1;
      }
    }
  }

  lemma SegmentLanguage(s: string)
    ensures Matches(SEGMENT, s) <==> IsSegment(s)
  {
    if IsSegment(s) {
      SegmentChars(s[1..]);
      MatchesCat(Base64Url, Star(Base64Url), s[..1], s[1..]);
      assert s == s[..1] + s[1..];
    }
    if Matches(SEGMENT, s) {
      var a, b := SplitCat(Base64Url, Star(Base64Url), s);
      SegmentChars(b);
    }
  }

  lemma SegmentsAreSeparate(s: string)
    requires AllBase64Url(s)
    ensures Without(DOT, s) && Without(SEPARATOR, s)
  {
  }

  lemma JwtLanguage(s: string)
    ensures Matches(JWT, s) <==> IsJwt(s)
  {
    if IsJwt(s) {
      JwtSplits(s);
    }
    if Matches(JWT, s) {
      var a, b, c := JwtSections(s);
      Sections(a, b, c);
    }
  }

  lemma JwtSplits(s: string)
    requires IsJwt(s)
    ensures Matches(JWT, s)
  {
    var parts := Split(DOT, s);
    JoinSplit(DOT, s);
    var a, b, c := parts[0], parts[1], parts[2];
    assert parts == [a, b, c];
    JoinThree(a, b, c);
    JwtMatches(a, b, c);
  }

  lemma JoinThree(a: string, b: string, c: string)
    ensures Join(DOT, [a, b, c]) == a + ([DOT] + (b + ([DOT] + c)))
  {
    assert [a, b, c][1..] == [b, c] && [b, c][1..] == [c];
    assert Join(DOT, [b, c]) == b + [DOT] + c;
    assert Join(DOT, [a, b, c]) == a + [DOT] + (b + [DOT] + c);
  }

  // Segments joined by dots are a JWT.
  lemma Sections(a: string, b: string, c: string)
    requires IsSegment(a) && IsSegment(b) && IsSegment(c)
    ensures IsJwt(a + [DOT] + b + [DOT] + c)
  {
    SegmentsAreSeparate(a);
    SegmentsAreSeparate(b);
    SegmentsAreSeparate(c);
    SplitFirst(DOT, a, b + [DOT] + c);
    SplitFirst(DOT, b, c);
    SplitOne(DOT, c);
    assert a + [DOT] + b + [DOT] + c == a + [DOT] + (b + [DOT] + c);
  }

  lemma JwtMatches(a: string, b: string, c: string)
    requires IsSegment(a) && IsSegment(b) && IsSegment(c)
    ensures Matches(JWT, a + ([DOT] + (b + ([DOT] + c))))
  {
    SegmentLanguage(a);
    SegmentLanguage(b);
    SegmentLanguage(c);
    MatchesCat(Character(DOT), SEGMENT, [DOT], c);
    MatchesCat(SEGMENT, Cat(Character(DOT), SEGMENT), b, [DOT] + c);
    MatchesCat(Character(DOT), Cat(SEGMENT, Cat(Character(DOT), SEGMENT)), [DOT], b + ([DOT] + c));
    MatchesCat(SEGMENT, Cat(Character(DOT), Cat(SEGMENT, Cat(Character(DOT), SEGMENT))), a, [DOT] + (b + ([DOT] + c)));
  }

  lemma JwtSections(s: string) returns (a: string, b: string, c: string)
    requires Matches(JWT, s)
    ensures s == a + [DOT] + b + [DOT] + c && IsSegment(a) && IsSegment(b) && IsSegment(c)
  {
    var t: string, d: string, u: string, v: string, e: string;
    a, t := SplitCat(SEGMENT, Cat(Character(DOT), Cat(SEGMENT, Cat(Character(DOT), SEGMENT))), s);
    d, u := SplitCat(Character(DOT), Cat(SEGMENT, Cat(Character(DOT), SEGMENT)), t);
    b, v := SplitCat(SEGMENT, Cat(Character(DOT), SEGMENT), u);
    e, c := SplitCat(Character(DOT), SEGMENT, v);
    SegmentLanguage(a);
    SegmentLanguage(b);
    SegmentLanguage(c);
  }

  // Each disclosure preceded by a tilde.
  function Leading(disclosures: seq<string>): string {
    if disclosures == [] then "" else [SEPARATOR] + disclosures[0] + Leading(disclosures[1..])
  }

  lemma {:induction false} LeadingMatches(ds: seq<string>)
    requires AreSegments(ds)
    ensures Matches(Star(DISCLOSURE), Leading(ds))
    decreases |ds|
  {
    if ds == [] {
    } else {
      LeadingMatches(ds[1..]);
      SegmentLanguage(ds[0]);
      MatchesCat(Character(SEPARATOR), SEGMENT, [SEPARATOR], ds[0]);
      MatchesStar(DISCLOSURE, [SEPARATOR] + ds[0], Leading(ds[1..]));
    }
  }

  lemma {:induction false} LeadingParts(s: string) returns (ds: seq<string>)
    requires Matches(Star(DISCLOSURE), s)
    ensures AreSegments(ds) && s == Leading(ds)
    decreases |s|
  {
    ds := [];
    if s == "" {
    } else {
      var i :| 0 < i <= |s| && Matches(DISCLOSURE, s[..i]) && Matches(Star(DISCLOSURE), s[i..]);
      var t, d := SplitCat(Character(SEPARATOR), SEGMENT, s[..i]);
      SegmentLanguage(d);
      var rest := LeadingParts(s[i..]);
      ds := [d] + rest;
      assert s == s[..i] + s[i..];
    }
  }

  lemma {:induction false} PresentIsLeading(jwt: string, ds: seq<string>, kb: string)
    ensures Present(Token(jwt, ds, kb)) == jwt + (Leading(ds) + ([SEPARATOR] + kb))
    decreases |ds|
  {
    var parts := [jwt] + ds + [kb];
    if ds == [] {
      assert parts[1..] == [kb] && Join(SEPARATOR, [kb]) == kb;
      assert jwt + [SEPARATOR] + kb == jwt + ("" + ([SEPARATOR] + kb));
    } else {
      assert parts[1..] == Parts(Token(ds[0], ds[1..], kb));
      PresentIsLeading(ds[0], ds[1..], kb);
    }
  }

  // Nothing, or JWTs run together: the last group of the pattern may repeat.
  ghost predicate IsKbPart(s: string) {
    Matches(Star(JWT), s)
  }

  lemma {:induction false} KbPartChars(s: string)
    requires IsKbPart(s)
    ensures Without(SEPARATOR, s)
    decreases |s|
  {
    if s == "" {
    } else {
      var i :| 0 < i <= |s| && Matches(JWT, s[..i]) && Matches(Star(JWT), s[i..]);
      var a, b, c := JwtSections(s[..i]);
      JwtChars(a, b, c);
      KbPartChars(s[i..]);
      assert s == s[..i] + s[i..];
    }
  }

  lemma JwtChars(a: string, b: string, c: string)
    requires IsSegment(a) && IsSegment(b) && IsSegment(c)
    ensures Without(SEPARATOR, a + [DOT] + b + [DOT] + c)
  {
    SegmentsAreSeparate(a);
    SegmentsAreSeparate(b);
    SegmentsAreSeparate(c);
  }

  // The tokens whose written form the pattern describes.
  ghost predicate WellFormedToken(t: Token) {
    IsJwt(t.jwt) && AreSegments(t.disclosures) && IsKbPart(t.kbJwt)
  }

  lemma WellFormedIsWritable(t: Token)
    requires WellFormedToken(t)
    ensures Writable(t)
  {
    JwtLanguage(t.jwt);
    var a, b, c := JwtSections(t.jwt);
    JwtChars(a, b, c);
    KbPartChars(t.kbJwt);
    forall i | 0 <= i < |Parts(t)| ensures Without(SEPARATOR, Parts(t)[i]) {
      if 0 < i < |Parts(t)| - 1 {
        assert Parts(t)[i] == t.disclosures[i - 1];
        SegmentsAreSeparate(t.disclosures[i - 1]);
      }
    }
  }

  // A string that is some well-formed token written out.
  ghost predicate IsWritten(s: string) {
    Parse(s).Ok? && WellFormedToken(Parse(s).value)
  }

  lemma PatternExact(s: string)
    ensures Matches(SD_JWT, s) <==> IsWritten(s)
  {
    if IsWritten(s) {
      var t := Parse(s).value;
      ParseExact(s, t);
      PresentMatches(t);
    }
    if Matches(SD_JWT, s) {
      var t := TokenOfMatch(s);
      WellFormedIsWritable(t);
      ParseExact(s, t);
    }
  }

  ghost predicate EndsInNewline(s: string) {
    s != "" && s[|s| - 1] == '\n'
  }

  /**
   The format check and the parser, exactly: a string passes iff it, or what it is without a
   final newline, parses into a JWT, base64url disclosures and a tail of zero or more JWTs.
   */
  lemma FormatExact(s: string)
    ensures IsSdJwtFormat(s) <==> IsWritten(s) || (EndsInNewline(s) && IsWritten(s[..|s| - 1]))
  {
    PatternExact(s);
    if EndsInNewline(s) {
      PatternExact(s[..|s| - 1]);
    }
  }

  // Letters, digits, '-' and '_', and the characters the expression names.
  ghost predicate UsesOnly(r: Regexp, others: set<char>) {
    match r
    case Base64Url => true
    case Character(c) => c in others
    case Cat(left, right) => UsesOnly(left, others) && UsesOnly(right, others)
    case Star(body) => UsesOnly(body, others)
  }

  predicate IsPlain(c: char) {
    'a' <= c <= 'z' || 'A' <= c <= 'Z' || '0' <= c <= '9' || c == '-' || c == '_'
  }

  lemma {:induction false} MatchedChars(r: Regexp, s: string, others: set<char>)
    requires Matches(r, s) && UsesOnly(r, others)
    ensures forall c :: c in s ==> IsPlain(c) || c in others
    decreases r, |s|
  {
    match r
    case Base64Url =>
    case Character(_) =>
    case Cat(left, right) =>
      var i :| 0 <= i <= |s| && Matches(left, s[..i]) && Matches(right, s[i..]);
      MatchedChars(left, s[..i], others);
      MatchedChars(right, s[i..], others);
      assert s == s[..i] + s[i..];
    case Star(body) =>
      if s != "" {
        var i :| 0 < i <= |s| && Matches(body, s[..i]) && Matches(r, s[i..]);
        MatchedChars(body, s[..i], others);
        MatchedChars(r, s[i..], others);
        assert s == s[..i] + s[i..];
      }
  }

  // What passes holds nothing but these characters, dots and tildes, and perhaps a final newline.
  lemma {:induction false} FormatAlphabet(s: string)
    requires IsSdJwtFormat(s)
    ensures forall i :: 0 <= i < |s| ==> IsPlain(s[i]) || s[i] == '.' || s[i] == '~' || (i == |s| - 1 && s[i] == '\n')
  {
    SdJwtUses();
    if Matches(SD_JWT, s) {
      MatchedChars(SD_JWT, s, {'.', '~'});
    } else {
      MatchedChars(SD_JWT, s[..|s| - 1], {'.', '~'});
      assert s == s[..|s| - 1] + [s[|s| - 1]];
    }
  }

  lemma SdJwtUses()
    ensures UsesOnly(SD_JWT, {'.', '~'})
  {
    assert UsesOnly(SEGMENT, {'.', '~'});
    assert UsesOnly(JWT, {'.', '~'});
    assert UsesOnly(DISCLOSURE, {'.', '~'});
  }

  // Everything that passes parses; a final newline stays in the key-binding part.
  lemma FormatParses(s: string)
    requires IsSdJwtFormat(s)
    ensures Parse(s).Ok?
  {
    FormatExact(s);
    if !IsWritten(s) {
      var u := s[..|s| - 1];
      assert s == u + "\n";
      ParseExact(u, Parse(u).value);
      NewlineParses(Parse(u).value);
    }
  }

  lemma NewlineParses(t: Token)
    requires WellFormedToken(t)
    ensures Parse(Present(t) + "\n") == Ok(t.(kbJwt := t.kbJwt + "\n"))
  {
    var u := t.(kbJwt := t.kbJwt + "\n");
    WellFormedIsWritable(t);
    assert forall i :: 0 <= i < |Parts(u)| - 1 ==> Parts(u)[i] == Parts(t)[i];
    assert Without(SEPARATOR, t.kbJwt) by {
      assert Parts(t)[|Parts(t)| - 1] == t.kbJwt;
    }
    JoinLast(SEPARATOR, [t.jwt] + t.disclosures, t.kbJwt, "\n");
    ParseExact(Present(u), u);
  }

  // Every well-formed token still passes with a newline at its end, and is then read differently.
  lemma FinalNewlinePasses(t: Token)
    requires WellFormedToken(t)
    ensures IsSdJwtFormat(Present(t) + "\n")
    ensures Parse(Present(t) + "\n").Ok? && Parse(Present(t) + "\n").value.kbJwt == t.kbJwt + "\n" != t.kbJwt
  {
    NewlineParses(t);
    PresentMatches(t);
    assert (Present(t) + "\n")[..|Present(t)|] == Present(t);
  }

  lemma PresentMatches(t: Token)
    requires WellFormedToken(t)
    ensures Matches(SD_JWT, Present(t))
  {
    var tail := Cat(Character(SEPARATOR), Star(JWT));
    JwtLanguage(t.jwt);
    LeadingMatches(t.disclosures);
    MatchesCat(Character(SEPARATOR), Star(JWT), [SEPARATOR], t.kbJwt);
    MatchesCat(Star(DISCLOSURE), tail, Leading(t.disclosures), [SEPARATOR] + t.kbJwt);
    MatchesCat(JWT, Cat(Star(DISCLOSURE), tail), t.jwt, Leading(t.disclosures) + ([SEPARATOR] + t.kbJwt));
    PresentIsLeading(t.jwt, t.disclosures, t.kbJwt);
  }

  lemma TokenOfMatch(s: string) returns (t: Token)
    requires Matches(SD_JWT, s)
    ensures WellFormedToken(t) && s == Present(t)
  {
    var tail := Cat(Character(SEPARATOR), Star(JWT));
    var jwt, u := SplitCat(JWT, Cat(Star(DISCLOSURE), tail), s);
    var v, w := SplitCat(Star(DISCLOSURE), tail, u);
    var x, kb := SplitCat(Character(SEPARATOR), Star(JWT), w);
    JwtLanguage(jwt);
    var ds := LeadingParts(v);
    PresentIsLeading(jwt, ds, kb);
    t := Token(jwt, ds, kb);
  }

  /**
   The wire-format round trip: for every JWT, base64url disclosures and key-binding JWT or
   none, the written string is recognised and parses back to the same parts.
   */
  lemma WireRoundTrip(jwt: string, disclosures: seq<string>, kbJwt: string)
    requires IsJwt(jwt) && AreSegments(disclosures) && (kbJwt == "" || IsJwt(kbJwt))
    ensures var t := Token(jwt, disclosures, kbJwt);
            IsSdJwtFormat(Present(t)) && Parse(Present(t)) == Ok(t)
    ensures Parse(IssuanceString(jwt, disclosures)) == Ok(Token(jwt, disclosures, ""))
            && IsSdJwtFormat(IssuanceString(jwt, disclosures))
  {
    if kbJwt != "" {
      JwtLanguage(kbJwt);
      assert kbJwt + "" == kbJwt;
      MatchesStar(JWT, kbJwt, "");
    }
    var t, u := Token(jwt, disclosures, kbJwt), Token(jwt, disclosures, "");
    IssuanceIsPresentation(jwt, disclosures);
    WellFormedIsWritable(t);
    WellFormedIsWritable(u);
    ParseExact(Present(t), t);
    ParseExact(Present(u), u);
    PatternExact(Present(t));
    PatternExact(Present(u));
  }

  /**
   The repeated last group lets through a key-binding part that is not a JWT: any two JWTs run
   together are accepted there.
   */
  lemma KbPartNeedNotBeAJwt(jwt: string, ds: seq<string>, first: string, second: string)
    requires IsJwt(jwt) && AreSegments(ds) && IsJwt(first) && IsJwt(second)
    ensures IsSdJwtFormat(Present(Token(jwt, ds, first + second)))
    ensures Parse(Present(Token(jwt, ds, first + second))) == Ok(Token(jwt, ds, first + second))
    ensures !IsJwt(first + second)
  {
    var t := Token(jwt, ds, first + second);
    JwtLanguage(first);
    JwtLanguage(second);
    assert second + "" == second;
    MatchesStar(JWT, second, "");
    MatchesStar(JWT, first, second);
    WellFormedIsWritable(t);
    ParseExact(Present(t), t);
    PatternExact(Present(t));
    RunTogether(first, second);
  }

  lemma RunTogether(first: string, second: string)
    requires IsJwt(first) && IsJwt(second)
    ensures |Split(DOT, first + second)| == 5
  {
    JwtLanguage(first);
    JwtLanguage(second);
    var a, b, c := JwtSections(first);
    var d, e, f := JwtSections(second);
    Regroup(a, b, c, d, e, f);
    FiveSections(a, b, c + d, e, f);
  }

  lemma Regroup(a: string, b: string, c: string, d: string, e: string, f: string)
    ensures (a + [DOT] + b + [DOT] + c) + (d + [DOT] + e + [DOT] + f) ==
            a + [DOT] + (b + [DOT] + ((c + d) + [DOT] + (e + [DOT] + f)))
  {
  }

  lemma FiveSections(a: string, b: string, c: string, d: string, e: string)
    requires IsSegment(a) && IsSegment(b) && IsSegment(c) && IsSegment(d) && IsSegment(e)
    ensures |Split(DOT, a + [DOT] + (b + [DOT] + (c + [DOT] + (d + [DOT] + e))))| == 5
  {
    SegmentsAreSeparate(a);
    SegmentsAreSeparate(b);
    SegmentsAreSeparate(c);
    SegmentsAreSeparate(d);
    SegmentsAreSeparate(e);
    SplitOne(DOT, e);
    SplitFirst(DOT, d, e);
    SplitFirst(DOT, c, d + [DOT] + e);
    SplitFirst(DOT, b, c + [DOT] + (d + [DOT] + e));
    SplitFirst(DOT, a, b + [DOT] + (c + [DOT] + (d + [DOT] + e)));
  }
}
