/** The authorisation guard `protect` (backend/src/middleware/authMiddleware.js). The identity
    provider is outside the model: whether its admin app is initialised is the flag `adminReady`,
    and `verifyIdToken` is the uninterpreted function `verify`, which receives the second
    space-separated field of the header (`None` when there is none, as `split(' ')[1]` is then
    `undefined`) and yields the decoded token or `None` when verification rejects it. */
module AuthMiddleware {
  import opened Wrappers
  import opened Strings

  /** The decoded ID token attached as `req.user`. */
  datatype DecodedToken = DecodedToken(uid: string, email: Option<string>)

  /** Either `next()` runs with `req.user` set, or the guard answers `{ success: false, error }`. */
  datatype AuthOutcome = Authenticated(user: DecodedToken) | Rejected(status: int, error: string)

  const NoToken := "Not authorized, no token"
  const NotConfigured := "Auth service not configured"
  const TokenFailed := "Not authorized, token failed"

  /** The header passes the first check: present and starting with "Bearer". */
  predicate HasBearer(authorization: Option<string>) {
    authorization.Some? && StartsWith(authorization.value, "Bearer")
  }

  /** `authorization.split(' ')[1]`. */
  function Token(authorization: string): (r: Option<string>)
    ensures r.None? <==> ' ' !in authorization
    ensures r.Some? ==> ' ' !in r.value
  {
    var fields := Split(authorization, ' ');
    SplitOnceIffNoSeparator(authorization, ' ');
    if |fields| > 1 then Some(fields[1]) else None
  }

  /** The token is the second field: it starts right after the header's first space, holds no
      space, and ends at the next space or at the end of the header. */
  lemma {:induction false} TokenIsSecondField(authorization: string)
    requires ' ' in authorization
    ensures var t := Token(authorization).value;
            exists i :: && 0 <= i < |authorization| && authorization[i] == ' ' && ' ' !in authorization[..i]
                        && i + 1 + |t| <= |authorization| && authorization[i + 1..i + 1 + |t|] == t
                        && (i + 1 + |t| == |authorization| || authorization[i + 1 + |t|] == ' ')
  {
    var fields := Split(authorization, ' ');
    SplitAtLeastTwo(authorization, ' ');
    JoinSplit(authorization, ' ');
    JoinOfTwoOrMore(fields, ' ');
    var first, token := fields[0], fields[1];
    var rest: string := if |fields| == 2 then [] else [' '] + Join(fields[2..], ' ');
    assert Token(authorization).value == token;
    assert authorization == first + [' '] + token + rest;
    var i := |first|;
    assert authorization[..i] == first;
    assert authorization[i] == ' ';
    assert authorization[i + 1..i + 1 + |token|] == token;
    assert rest == [] || authorization[i + 1 + |token|] == rest[0];
  }

  /** `protect(req, res, next)`. */
  function Protect(authorization: Option<string>, adminReady: bool,
                   verify: Option<string> -> Option<DecodedToken>): (r: AuthOutcome)
    ensures !HasBearer(authorization) ==> r == Rejected(401, NoToken)
    ensures HasBearer(authorization) && !adminReady ==> r == Rejected(500, NotConfigured)
    ensures HasBearer(authorization) && adminReady && verify(Token(authorization.value)).None?
            ==> r == Rejected(401, TokenFailed)
    ensures r.Authenticated? <==> HasBearer(authorization) && adminReady
                                  && verify(Token(authorization.value)).Some?
    ensures r.Authenticated? ==> r.user == verify(Token(authorization.value)).value
  {
    if HasBearer(authorization) then
      var token := Token(authorization.value);
      if !adminReady then Rejected(500, NotConfigured)
      else match verify(token)
        case Some(decoded) => Authenticated(decoded)
        case None => Rejected(401, TokenFailed)
    else Rejected(401, NoToken)
  }

  /** Without a bearer header the outcome does not depend on the provider at all:
      neither its readiness nor the verifier is consulted. */
  lemma NoBearerIgnoresProvider(authorization: Option<string>, ready1: bool, ready2: bool,
                                verify1: Option<string> -> Option<DecodedToken>,
                                verify2: Option<string> -> Option<DecodedToken>)
    requires !HasBearer(authorization)
    ensures Protect(authorization, ready1, verify1) == Protect(authorization, ready2, verify2)
  {
  }

  /** An uninitialised provider is reported before any verification is attempted. */
  lemma NotReadyIgnoresVerifier(authorization: Option<string>,
                                verify1: Option<string> -> Option<DecodedToken>,
                                verify2: Option<string> -> Option<DecodedToken>)
    requires HasBearer(authorization)
    ensures Protect(authorization, false, verify1) == Protect(authorization, false, verify2)
  {
  }

  /** A well-formed header "Bearer <t>", with `t` free of spaces, hands exactly `t` to the verifier. */
  lemma {:induction false} WellFormedHeaderToken(t: string)
    requires ' ' !in t
    ensures HasBearer(Some("Bearer " + t))
    ensures Token("Bearer " + t) == Some(t)
  {
    var parts := ["Bearer", t];
    assert Join(parts, ' ') == "Bearer" + [' '] + t by {
      assert parts[1..] == [t];
    }
    assert "Bearer" + [' '] + t == "Bearer " + t;
    SplitJoin(parts, ' ');
    assert ("Bearer " + t)[..6] == "Bearer";
  }

  /** Extra spaces shift the fields: "Bearer  t" (two spaces) hands the empty string to the verifier. */
  lemma {:induction false} DoubleSpaceToken(t: string)
    requires ' ' !in t
    ensures Token("Bearer  " + t) == Some("")
  {
    var parts := ["Bearer", "", t];
    assert Join(parts, ' ') == "Bearer  " + t by {
      assert parts[1..] == ["", t];
      assert parts[1..][1..] == [t];
      assert Join(["", t], ' ') == [] + [' '] + t;
      assert Join(parts, ' ') == "Bearer" + [' '] + ([] + [' '] + t);
    }
    SplitJoin(parts, ' ');
  }
}
