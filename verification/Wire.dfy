/** The compact serialization: parts joined by tildes. */
module Wire {
  import opened Wrappers

  const SEPARATOR: char := '~'
  const DOT: char := '.'

  // sep.join(parts).
  function Join(sep: char, parts: seq<string>): string {
    if parts == [] then ""
    else if |parts| == 1 then parts[0]
    else parts[0] + [sep] + Join(sep, parts[1..])
  }

  // s.split(sep): always at least one part.
  function Split(sep: char, s: string): (parts: seq<string>)
    ensures parts != []
  {
    if s == "" then [""]
    else
      var rest := Split(sep, s[1..]);
      if s[0] == sep then [""] + rest else [[s[0]] + rest[0]] + rest[1..]
  }

  predicate Without(sep: char, s: string) {
    forall i :: 0 <= i < |s| ==> s[i] != sep
  }

  predicate AllWithout(sep: char, parts: seq<string>) {
    forall i :: 0 <= i < |parts| ==> Without(sep, parts[i])
  }

  /* Split and Join are inverse. */

  lemma {:induction false} SplitOne(sep: char, s: string)
    requires Without(sep, s)
    ensures Split(sep, s) == [s]
    decreases |s|
  {
    if s == "" {
    } else {
      SplitOne(sep, s[1..]);
      assert [s[0]] + s[1..] == s;
    }
  }

  lemma {:induction false} SplitFirst(sep: char, s: string, t: string)
    requires Without(sep, s)
    ensures Split(sep, s + [sep] + t) == [s] + Split(sep, t)
    decreases |s|
  {
    var u := s + [sep] + t;
    if s == "" {
      assert u[1..] == t;
    } else {
      assert u[1..] == s[1..] + [sep] + t;
      SplitFirst(sep, s[1..], t);
      assert [s[0]] + s[1..] == s;
    }
  }

  lemma {:induction false} SplitJoin(sep: char, parts: seq<string>)
    requires parts != [] && AllWithout(sep, parts)
    ensures Split(sep, Join(sep, parts)) == parts
    decreases |parts|
  {
    if |parts| == 1 {
      SplitOne(sep, parts[0]);
    } else {
      SplitJoin(sep, parts[1..]);
      SplitFirst(sep, parts[0], Join(sep, parts[1..]));
    }
  }

  lemma {:induction false} JoinSplit(sep: char, s: string)
    ensures Join(sep, Split(sep, s)) == s
    ensures AllWithout(sep, Split(sep, s))
    decreases |s|
  {
    if s == "" {
    } else {
      var rest := Split(sep, s[1..]);
      JoinSplit(sep, s[1..]);
      var parts := Split(sep, s);
      assert Without(sep, rest[0]);
      if s[0] == sep {
        assert parts[1..] == rest;
        assert s == "" + [sep] + s[1..];
      } else if |rest| == 1 {
        assert s == [s[0]] + s[1..];
      } else {
        assert parts[1..] == rest[1..];
        assert s == [s[0]] + s[1..];
        assert [s[0]] + (rest[0] + [sep] + Join(sep, rest[1..])) == ([s[0]] + rest[0]) + [sep] + Join(sep, rest[1..]);
      }
    }
  }

  /* The three parts of a token. */

  datatype Token = Token(jwt: string, disclosures: seq<string>, kbJwt: string)

  datatype ParseError = TooFewParts | NotAJwt

  function Parts(t: Token): seq<string> {
    [t.jwt] + t.disclosures + [t.kbJwt]
  }

  // What the holder writes. Without key binding the last part is empty.
  function Present(t: Token): string {
    Join(SEPARATOR, Parts(t))
  }

  // What the issuer writes.
  function IssuanceString(jwt: string, disclosures: seq<string>): string {
    Join(SEPARATOR, [jwt] + disclosures) + [SEPARATOR]
  }

  // What every reader does.
  function Parse(s: string): Result<Token, ParseError> {
    var parts := Split(SEPARATOR, s);
    if |parts| < 2 then Err(TooFewParts)
    else if |Split(DOT, parts[0])| != 3 then Err(NotAJwt)
    else Ok(Token(parts[0], parts[1..|parts| - 1], parts[|parts| - 1]))
  }

  // Parts that can be told apart again.
  ghost predicate Writable(t: Token) {
    AllWithout(SEPARATOR, Parts(t)) && |Split(DOT, t.jwt)| == 3
  }

  /**
   Parsing inverts writing, exactly: a string parses to a token iff it is that token written
   out and the token's parts hold no tilde and its first part has three sections.
   */
  lemma ParseExact(s: string, t: Token)
    ensures Parse(s) == Ok(t) <==> s == Present(t) && Writable(t)
  {
    var parts := Split(SEPARATOR, s);
    if s == Present(t) && Writable(t) {
      SplitJoin(SEPARATOR, Parts(t));
      assert Parts(t)[1..|Parts(t)| - 1] == t.disclosures;
    }
    if Parse(s) == Ok(t) {
      FirstMiddleLast(parts);
      assert parts == Parts(t);
      JoinSplit(SEPARATOR, s);
    }
  }

  function Count(c: char, s: string): nat {
    if s == "" then 0 else (if s[0] == c then 1 else 0) + Count(c, s[1..])
  }

  lemma {:induction false} SplitCount(sep: char, s: string)
    ensures |Split(sep, s)| == Count(sep, s) + 1
    decreases |s|
  {
    if s == "" {
    } else {
      SplitCount(sep, s[1..]);
    }
  }

  /**
   What is not a token: a string without a tilde has too few parts; one whose text before the first
   tilde does not have exactly two dots is no JWT; and every other string is a token.
   */
  lemma {:induction false} ParseErrors(first: string, rest: string)
    requires Without('~', first)
    ensures Parse(first) == Err(TooFewParts)
    ensures Count('.', first) == 2 ==> Parse(first + "~" + rest).Ok? && Parse(first + "~" + rest).value.jwt == first
    ensures Count('.', first) != 2 ==> Parse(first + "~" + rest) == Err(NotAJwt)
  {
    SplitOne(SEPARATOR, first);
    SplitFirst(SEPARATOR, first, rest);
    SplitCount(DOT, first);
    assert first + "~" + rest == first + [SEPARATOR] + rest;
  }

  lemma FirstMiddleLast(parts: seq<string>)
    requires |parts| >= 2
    ensures parts == [parts[0]] + parts[1..|parts| - 1] + [parts[|parts| - 1]]
  {
  }

  lemma {:induction false} JoinTrailing(sep: char, parts: seq<string>)
    requires parts != []
    ensures Join(sep, parts + [""]) == Join(sep, parts) + [sep]
    decreases |parts|
  {
    if |parts| == 1 {
      assert (parts + [""])[1..] == [""];
      assert parts[0] + [sep] + "" == parts[0] + [sep];
    } else {
      assert (parts + [""])[1..] == parts[1..] + [""];
      JoinTrailing(sep, parts[1..]);
      assert parts[0] + [sep] + (Join(sep, parts[1..]) + [sep]) == (parts[0] + [sep] + Join(sep, parts[1..])) + [sep];
    }
  }

  // A longer last part makes the whole longer.
  lemma {:induction false} JoinLast(sep: char, parts: seq<string>, last: string, more: string)
    ensures Join(sep, parts + [last]) + more == Join(sep, parts + [last + more])
    decreases |parts|
  {
    if parts == [] {
    } else {
      assert (parts + [last])[1..] == parts[1..] + [last] && (parts + [last + more])[1..] == parts[1..] + [last + more];
      JoinLast(sep, parts[1..], last, more);
    }
  }

  // An issued string is a presentation of everything, without key binding.
  lemma IssuanceIsPresentation(jwt: string, disclosures: seq<string>)
    ensures IssuanceString(jwt, disclosures) == Present(Token(jwt, disclosures, ""))
  {
    JoinTrailing(SEPARATOR, [jwt] + disclosures);
  }

  /* Key binding: three ways to write the string that is hashed. */

  // SDJWTCommon: the holder over what it selected, the verifier over what it parsed.
  function StringToHash(jwt: string, disclosures: seq<string>): string {
    Join(SEPARATOR, [jwt] + disclosures + [""])
  }

  function Tilded(disclosures: seq<string>): string {
    if disclosures == [] then "" else disclosures[0] + [SEPARATOR] + Tilded(disclosures[1..])
  }

  // SdJwt: the token without its last part.
  function TokenWithoutKb(t: Token): string {
    t.jwt + [SEPARATOR] + Tilded(t.disclosures)
  }

  lemma {:induction false} SameStringToHash(jwt: string, disclosures: seq<string>, kbJwt: string)
    ensures StringToHash(jwt, disclosures) == TokenWithoutKb(Token(jwt, disclosures, kbJwt))
    decreases |disclosures|
  {
    if disclosures == [] {
      assert [jwt] + disclosures + [""] == [jwt, ""];
      assert [jwt, ""][1..] == [""];
      assert Join(SEPARATOR, [""]) == "";
      assert jwt + [SEPARATOR] + "" == jwt + [SEPARATOR];
    } else {
      var d, rest := disclosures[0], disclosures[1..];
      var parts := [jwt] + disclosures + [""];
      assert parts[1..] == [d] + rest + [""];
      SameStringToHash(d, rest, kbJwt);
    }
  }

  /* The objects that hold the parsed parts. */

  // SDJWTCommon, compact format.
  class CompactReader {
    var unverifiedInputSdJwt: string
    var inputDisclosures: seq<string>
    var unverifiedInputKeyBindingJwt: string

    constructor ()
    {
      unverifiedInputSdJwt, inputDisclosures, unverifiedInputKeyBindingJwt := "", [], "";
    }

    method ParseSdJwt(sdJwt: string) returns (error: Option<ParseError>)
      modifies this
      ensures match Parse(sdJwt)
              case Err(e) => error == Some(e)
              case Ok(t) => error == None
                            && t == Token(unverifiedInputSdJwt, inputDisclosures, unverifiedInputKeyBindingJwt)
                            && sdJwt == Present(t)
    {
      var parts := Split(SEPARATOR, sdJwt);
      if |parts| < 2 {
        return Some(TooFewParts);
      }
      unverifiedInputSdJwt := parts[0];
      inputDisclosures := parts[1..|parts| - 1];
      unverifiedInputKeyBindingJwt := parts[|parts| - 1];
      if |Split(DOT, unverifiedInputSdJwt)| != 3 {
        return Some(NotAJwt);
      }
      ParseExact(sdJwt, Token(parts[0], parts[1..|parts| - 1], parts[|parts| - 1]));
      return None;
    }
  }
}
