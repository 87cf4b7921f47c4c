/** Splitting an Authorization value `<scheme> <parameter>` (AuthenticationHeaderValue.TryParse,
    simplified) and JWTService.GetRawJTW. */
module AuthHeader {
  import opened Wrappers

  /** A parsed header value; `parameter` is None where the library leaves it null (scheme only). */
  datatype AuthHeaderValue = AuthHeaderValue(scheme: string, parameter: Option<string>)

  predicate IsWhitespace(c: char) {
    c == ' ' || c == '\t'
  }

  /** A token character of HTTP (visible ASCII except the delimiters). */
  predicate IsTokenChar(c: char) {
    '!' <= c <= '~' && c !in "\"(),/:;<=>?@[\\]{}"
  }

  predicate IsScheme(s: string) {
    |s| > 0 && forall i :: 0 <= i < |s| ==> IsTokenChar(s[i])
  }

  /** A parameter as the parser returns it: non-empty, with no whitespace at either end. */
  predicate IsParameter(p: string) {
    |p| > 0 && !IsWhitespace(p[0]) && !IsWhitespace(p[|p| - 1])
  }

  function TrimStart(s: string): (r: string)
    ensures |r| <= |s| && r == s[|s| - |r|..]
    ensures r == [] || !IsWhitespace(r[0])
    ensures forall i :: 0 <= i < |s| - |r| ==> IsWhitespace(s[i])
  {
    if s != [] && IsWhitespace(s[0]) then TrimStart(s[1..]) else s
  }

  function TrimEnd(s: string): (r: string)
    ensures |r| <= |s| && r == s[..|r|]
    ensures r == [] || !IsWhitespace(r[|r| - 1])
    ensures forall i :: |r| <= i < |s| ==> IsWhitespace(s[i])
  {
    if s != [] && IsWhitespace(s[|s| - 1]) then TrimEnd(s[..|s| - 1]) else s
  }

  /** The length of the longest prefix of `s` made of token characters. */
  function TokenLength(s: string): (n: nat)
    ensures n <= |s|
    ensures forall i :: 0 <= i < n ==> IsTokenChar(s[i])
    ensures n == |s| || !IsTokenChar(s[n])
  {
    if s != [] && IsTokenChar(s[0]) then 1 + TokenLength(s[1..]) else 0
  }

  /** Leading and trailing whitespace is skipped; the scheme is a run of token characters; if
      anything follows it, whitespace separates it from the parameter, which runs to the end. */
  function TryParse(input: Option<string>): (r: Option<AuthHeaderValue>)
    ensures r.Some? ==> IsScheme(r.value.scheme)
    ensures r.Some? && r.value.parameter.Some? ==> IsParameter(r.value.parameter.value)
  {
    if input.None? then None
    else
      var body := TrimEnd(TrimStart(input.value));
      var n := TokenLength(body);
      if n == 0 then None
      else if n == |body| then Some(AuthHeaderValue(body, None))
      else if !IsWhitespace(body[n]) then None
      else Some(AuthHeaderValue(body[..n], Some(TrimStart(body[n..]))))
  }

  /** The credentials of the header value: "" when it does not parse, null (None) when it has a
      scheme and nothing after it. */
  function GetRawJTW(jwt: Option<string>): (token: Option<string>)
    ensures jwt.None? || jwt == Some("") ==> token == Some("")
    ensures token.Some? && token.value != "" ==> IsParameter(token.value)
    ensures token.None? ==> TryParse(jwt).Some?
    ensures TryParse(jwt).None? ==> token == Some("")
    ensures TryParse(jwt).Some? ==> token == TryParse(jwt).value.parameter
  {
    match TryParse(jwt)
    case None => Some("")
    case Some(header) => header.parameter
  }

  lemma TokenCharIsNotWhitespace(c: char)
    requires IsTokenChar(c)
    ensures !IsWhitespace(c)
  {
  }

  /** The scheme ends at the first character that cannot belong to a token. */
  lemma {:induction false} TokenLengthOfScheme(scheme: string, rest: string)
    requires forall i :: 0 <= i < |scheme| ==> IsTokenChar(scheme[i])
    requires rest == [] || !IsTokenChar(rest[0])
    ensures TokenLength(scheme + rest) == |scheme|
  {
    if scheme != [] {
      assert (scheme + rest)[0] == scheme[0];
      assert (scheme + rest)[1..] == scheme[1..] + rest;
      TokenLengthOfScheme(scheme[1..], rest);
    }
  }

  /** A value written as scheme, one space and parameter parses back into those two parts. */
  lemma ParseFormatted(scheme: string, parameter: string)
    requires IsScheme(scheme) && IsParameter(parameter)
    ensures TryParse(Some(scheme + " " + parameter)) == Some(AuthHeaderValue(scheme, Some(parameter)))
  {
    var s := scheme + " " + parameter;
    TokenCharIsNotWhitespace(scheme[0]);
    assert s[0] == scheme[0];
    assert TrimStart(s) == s;
    assert s[|s| - 1] == parameter[|parameter| - 1];
    assert TrimEnd(s) == s;
    assert s == scheme + ([' '] + parameter);
    TokenLengthOfScheme(scheme, [' '] + parameter);
    assert s[..|scheme|] == scheme;
    assert s[|scheme|..] == [' '] + parameter;
    assert TrimStart(s[|scheme|..]) == TrimStart(parameter) == parameter;
  }

  /** GetRawJTW returns exactly the parameter of a `<scheme> <parameter>` value. */
  lemma GetRawJTWOfFormatted(scheme: string, parameter: string)
    requires IsScheme(scheme) && IsParameter(parameter)
    ensures GetRawJTW(Some(scheme + " " + parameter)) == Some(parameter)
  {
    ParseFormatted(scheme, parameter);
  }

  /** A value that is only a scheme parses, with no parameter, so GetRawJTW returns null. */
  lemma GetRawJTWOfSchemeOnly(scheme: string)
    requires IsScheme(scheme)
    ensures GetRawJTW(Some(scheme)) == None
  {
    TokenCharIsNotWhitespace(scheme[0]);
    assert TrimStart(scheme) == scheme;
    TokenCharIsNotWhitespace(scheme[|scheme| - 1]);
    assert TrimEnd(scheme) == scheme;
    assert scheme + [] == scheme;
    TokenLengthOfScheme(scheme, []);
  }
}
