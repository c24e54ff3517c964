/** The bearer-token gate in front of protected routes (`authenticateToken`). */
module AuthMiddleware {
  import opened Basics
  import opened Strings
  import opened Crypto

  /** The token taken from the `Authorization` header: the second `' '`-separated
      piece, when the header is present, has such a piece, and it is not empty.
      The first piece (the scheme word) is not looked at. */
  function ExtractToken(header: Option<string>): (token: Option<string>)
    ensures token.Some? ==> token.value != [] && ' ' !in token.value
  {
    if header.None? then None
    else
      var pieces := Split(header.value, ' ');
      if |pieces| >= 2 && pieces[1] != [] then Some(pieces[1]) else None
  }

  /** How a request ends: 401 with no token, 403 when verification fails, or the
      decoded payload attached to the request and `next()` called. */
  datatype GateOutcome = Missing | Rejected | Authenticated(user: Payload)

  /** `authenticateToken` with `verify` standing for `jwt.verify(·, JWT_SECRET)`
      at the current time. */
  function Authenticate(header: Option<string>, verify: string -> Verification): (o: GateOutcome)
    ensures o.Missing? <==> ExtractToken(header).None?
    ensures o.Rejected? <==> ExtractToken(header).Some? && !verify(ExtractToken(header).value).Verified?
    ensures o.Authenticated? <==> ExtractToken(header).Some? && verify(ExtractToken(header).value).Verified?
    ensures o.Authenticated? ==> o.user == verify(ExtractToken(header).value).payload
  {
    var token := ExtractToken(header);
    if token.None? then Missing
    else match verify(token.value)
      case Verified(decoded) => Authenticated(decoded)
      case _ => Rejected
  }

  /** The JSON error response the gate sends. */
  datatype ErrorReply = ErrorReply(status: int, error: string)

  const TokenRequired := "Access token is required."
  const TokenRejected := "Invalid or expired token."

  /** The response for an outcome; `None` means no response is sent and `next()`
      runs instead. */
  function Respond(o: GateOutcome): (r: Option<ErrorReply>)
    ensures r.None? <==> o.Authenticated?
    ensures r.Some? ==> r.value.status in {401, 403}
    ensures r.Some? && r.value.status == 401 <==> o.Missing?
  {
    match o
    case Missing => Some(ErrorReply(401, TokenRequired))
    case Rejected => Some(ErrorReply(403, TokenRejected))
    case Authenticated(_) => None
  }

  /** The token is exactly the second piece of the header, for any header written
      as separator-free pieces joined by single spaces. */
  lemma TokenIsSecondPiece(pieces: seq<string>)
    requires |pieces| >= 1
    requires NoSeparator(pieces, ' ')
    ensures ExtractToken(Some(Join(pieces, ' ')))
            == if |pieces| >= 2 && pieces[1] != [] then Some(pieces[1]) else None
  {
    SplitJoin(pieces, ' ');
  }

  /** No token: an absent header, or a header without a space. */
  lemma NoTokenCases(s: string)
    ensures ExtractToken(None) == None
    ensures ' ' !in s ==> ExtractToken(Some(s)) == None
  {
    if ' ' !in s {
      TokenIsSecondPiece([s]);
    }
  }

  /** No token either when the second piece is empty, as in `"Bearer  x"`. */
  lemma EmptySecondPiece()
    ensures ExtractToken(Some("Bearer  x")) == None
  {
    var bearer, empty, x := "Bearer", "", "x";
    assert ' ' !in bearer && ' ' !in x;
    JoinCons(empty, [x], ' ');
    JoinCons(bearer, [empty, x], ' ');
    assert bearer + [' '] + (empty + [' '] + x) == "Bearer  x";
    TokenIsSecondPiece([bearer, empty, x]);
  }

  /** The scheme word is not inspected: any scheme followed by one space and a
      space-free token yields that token. */
  lemma SchemeNotInspected(scheme: string, token: string)
    requires ' ' !in scheme && ' ' !in token && token != []
    ensures ExtractToken(Some(scheme + " " + token)) == Some(token)
  {
    JoinCons(scheme, [token], ' ');
    TokenIsSecondPiece([scheme, token]);
  }

  lemma BasicLikeBearer()
    ensures ExtractToken(Some("Basic abc")) == ExtractToken(Some("Bearer abc")) == Some("abc")
  {
    var basic, bearer, token := "Basic", "Bearer", "abc";
    assert ' ' !in basic && ' ' !in bearer && ' ' !in token;
    SchemeNotInspected(basic, token);
    SchemeNotInspected(bearer, token);
    assert basic + " " + token == "Basic abc";
    assert bearer + " " + token == "Bearer abc";
  }

  /** Without a token the verifier is never consulted: the outcome is the 401
      whatever `verify` would say. */
  lemma MissingIgnoresVerify(header: Option<string>, v1: string -> Verification, v2: string -> Verification)
    requires ExtractToken(header).None?
    ensures Authenticate(header, v1) == Authenticate(header, v2) == Missing
    ensures Respond(Authenticate(header, v1)) == Some(ErrorReply(401, TokenRequired))
  {
  }

  /** A bad signature and an expired token are answered identically. */
  lemma RejectionsIndistinguishable(header: Option<string>, v1: string -> Verification, v2: string -> Verification)
    requires ExtractToken(header).Some?
    requires v1(ExtractToken(header).value) == Invalid
    requires v2(ExtractToken(header).value) == Expired
    ensures Authenticate(header, v1) == Authenticate(header, v2) == Rejected
    ensures Respond(Authenticate(header, v1)) == Some(ErrorReply(403, TokenRejected))
  {
  }

  /** A freshly signed token presented as `"<scheme> <token>"` is admitted with
      exactly its claims until it expires, and rejected with a 403 from then on. */
  lemma SignedTokenAdmittedUntilExpiry(ts: TokenService, key: string, c: Claims, iat: int, now: int, scheme: string)
    requires SoundTokenService(ts)
    requires ' ' !in scheme
    ensures var header := Some(scheme + " " + ts.sign(c, key, iat, SevenDays));
            Authenticate(header, t => ts.verify(t, key, now))
            == if now < iat + SevenDays then Authenticated(Payload(c, iat, iat + SevenDays)) else Rejected
  {
    SchemeNotInspected(scheme, ts.sign(c, key, iat, SevenDays));
  }
}
