/** The bearer-token middleware: a request goes on only with an
    `Authorization` header of the form `Bearer <something>`. The token itself
    is not validated. */
module Auth {
  import opened Strings

  /** Abort with a JSON error body, or hand the request to the next handler. */
  datatype Outcome = Abort(status: int, error: string) | Next

  const BearerPrefix := "Bearer "

  /** `strings.TrimPrefix`. */
  function TrimPrefix(s: string, p: string): (r: string)
    ensures StartsWith(s, p) ==> p + r == s
    ensures !StartsWith(s, p) ==> r == s
  {
    if StartsWith(s, p) then s[|p|..] else s
  }

  /** The middleware on the header's value (an absent header reads as ""). */
  function Authorize(header: string): (r: Outcome)
    ensures !StartsWith(header, BearerPrefix) ==> r == Abort(401, "Unauthorized")
    ensures header == BearerPrefix ==> r == Abort(401, "Invalid token")
    ensures r.Next? <==> StartsWith(header, BearerPrefix) && |header| > |BearerPrefix|
  {
    if header == "" || !StartsWith(header, BearerPrefix) then Abort(401, "Unauthorized")
    else if TrimPrefix(header, BearerPrefix) == "" then Abort(401, "Invalid token")
    else Next
  }

  /** Every non-empty token passes, whatever it says; every refusal is 401. */
  lemma AnyTokenPasses(token: string, header: string)
    ensures token != "" ==> Authorize(BearerPrefix + token) == Next
    ensures Authorize(header).Abort? ==> Authorize(header).status == 401
  {
    if token != "" {
      StartsWithAppend(BearerPrefix, token);
    }
  }

  /** The scheme is matched case-sensitively and with exactly one space. */
  lemma SchemeIsExact(token: string)
    ensures Authorize("bearer " + token) == Abort(401, "Unauthorized")
    ensures Authorize("Bearer") == Abort(401, "Unauthorized")
  {
    assert ("bearer " + token)[0] == 'b';
  }
}
