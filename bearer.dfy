/** extractBearerToken (internal/tranport/http/handler/auth_handler.go):
    the token carried by an Authorization header of the form
    "Bearer <token>". The header's value is the input; reading it from the
    request is left to the transport. */
module AuthHandler {
  import opened Errors
  import opened Strings

  const BearerPrefix: string := "Bearer "

  /** An empty header is ErrMissingAuthHeader. A header that does not start
      with "Bearer " exactly (capital B, one space) is ErrInvalidAuthHeader,
      and so is one whose remainder is only white space. Otherwise the token
      is the remainder with its surrounding white space removed: non-empty,
      with no white space at either end. */
  function ExtractBearerToken(header: string): (r: Result<string>)
    ensures header == "" ==> r == Err(MissingAuthHeader)
    ensures header != "" && !HasPrefix(header, BearerPrefix) ==> r == Err(InvalidAuthHeader)
    ensures r.Ok? <==> HasPrefix(header, BearerPrefix) && !AllSpace(header[|BearerPrefix|..])
    ensures r.Err? ==> r.error in {MissingAuthHeader, InvalidAuthHeader}
    ensures r.Ok? ==> r.value != "" && NoEdgeSpace(r.value)
    ensures r.Ok? ==> r.value == TrimSpace(header[|BearerPrefix|..])
  {
    if header == "" then Err(MissingAuthHeader)
    else if !HasPrefix(header, BearerPrefix) then Err(InvalidAuthHeader)
    else
      var rest := header[|BearerPrefix|..];
      var token := TrimSpace(rest);
      if token == "" then Err(InvalidAuthHeader) else Ok(token)
  }

  /** A header built from the prefix and a token, with any white space
      around the token, gives that token back. */
  lemma BearerRoundTrip(before: string, token: string, after: string)
    requires AllSpace(before) && AllSpace(after)
    requires token != "" && NoEdgeSpace(token)
    ensures ExtractBearerToken(BearerPrefix + before + token + after) == Ok(token)
  {
    var header := BearerPrefix + before + token + after;
    assert header[|BearerPrefix|..] == before + token + after;
    assert header[..|BearerPrefix|] == BearerPrefix;
    TrimSpaceOfPadded(before, token, after);
  }

  /** The scheme is matched case-sensitively: a lower-case "bearer " prefix
      is refused whatever follows it. */
  lemma LowerCaseSchemeRefused(rest: string)
    ensures ExtractBearerToken("bearer " + rest) == Err(InvalidAuthHeader)
  {
    assert ("bearer " + rest)[0] == 'b';
  }
}
