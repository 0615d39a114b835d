/**
 * Request authentication (src/middleware/authMiddleware.js) and the shape
 * of token verification it relies on (src/utils/jwt.js): the
 * `Authorization` header must start with "Bearer ", the token is the
 * second field of the header split on single spaces, and every failure is
 * answered with status 401 without calling the next handler.
 */
module Auth {
  import opened Wrappers

  /** The claims of a verified token that the middleware reads. */
  datatype Payload = Payload(userId: string, username: string)

  /** What the middleware stores as `req.user`. */
  datatype AuthUser = AuthUser(userId: string, username: string)

  const BearerPrefix: string := "Bearer "
  const Unauthorized: int := 401

  const NoToken: string := "No token provided. Please login"
  const InvalidToken: string := "Invalid token"
  const TokenRejected: string := "Invalid or expired token. Please login again"
  const AuthFailed: string := "Authentication failed"
  const SecretMissing: string := "JWT_SECRET is not defined"

  predicate StartsWith(s: string, prefix: string)
  {
    |prefix| <= |s| && s[..|prefix|] == prefix
  }

  // ---------------------------------------------------------------------
  // Splitting on a separator

  /** JavaScript's `s.split(sep)` for a one-character separator: n separators give n + 1 fields. */
  function Split(s: string, sep: char): (r: seq<string>)
    ensures |r| >= 1
    decreases |s|
  {
    if |s| == 0 then [""]
    else
      var rest := Split(s[1..], sep);
      if s[0] == sep then [""] + rest else [[s[0]] + rest[0]] + rest[1..]
  }

  /** The longest prefix of `t` that does not contain `sep`. */
  function FirstField(t: string, sep: char): (r: string)
    ensures |r| <= |t| && r == t[..|r|]
    ensures sep !in r
    ensures |r| < |t| ==> t[|r|] == sep
  {
    if |t| == 0 || t[0] == sep then "" else [t[0]] + FirstField(t[1..], sep)
  }

  /** The first field of a split is everything up to the first separator. */
  lemma {:induction false} SplitHead(t: string, sep: char)
    ensures Split(t, sep)[0] == FirstField(t, sep)
  {
    if |t| > 0 && t[0] != sep {
      SplitHead(t[1..], sep);
    }
  }

  /** A separator-free word followed by a separator splits off as one field. */
  lemma {:induction false} SplitAfterWord(w: string, t: string, sep: char)
    requires sep !in w
    ensures Split(w + [sep] + t, sep) == [w] + Split(t, sep)
  {
    if |w| == 0 {
      assert w + [sep] + t == [sep] + t;
      assert ([sep] + t)[1..] == t;
    } else {
      assert (w + [sep] + t)[1..] == w[1..] + [sep] + t;
      SplitAfterWord(w[1..], t, sep);
      assert [w[0]] + w[1..] == w;
    }
  }

  /**
   * For a header that starts with "Bearer ", `split(' ')[1]` exists and is
   * the text after the prefix up to the next space (possibly empty).
   */
  lemma BearerTokenIsFirstField(header: string)
    requires StartsWith(header, BearerPrefix)
    ensures |Split(header, ' ')| >= 2
    ensures Split(header, ' ')[1] == FirstField(header[|BearerPrefix|..], ' ')
  {
    var rest := header[|BearerPrefix|..];
    assert header == "Bearer" + [' '] + rest by {
      assert header[..|BearerPrefix|] == BearerPrefix;
    }
    SplitAfterWord("Bearer", rest, ' ');
    SplitHead(rest, ' ');
  }

  /** The token of a bearer header: field 1 of the header split on single spaces. */
  function BearerToken(header: string): (token: string)
    requires StartsWith(header, BearerPrefix)
    ensures token == FirstField(header[|BearerPrefix|..], ' ')
  {
    BearerTokenIsFirstField(header);
    Split(header, ' ')[1]
  }

  /** With two spaces after "Bearer" the token is empty, whatever follows. */
  lemma DoubleSpaceGivesEmptyToken(rest: string)
    ensures StartsWith("Bearer  " + rest, BearerPrefix)
    ensures BearerToken("Bearer  " + rest) == ""
  {
    var header := "Bearer  " + rest;
    assert header[..|BearerPrefix|] == BearerPrefix;
    assert header[|BearerPrefix|..] == [' '] + rest;
  }

  // ---------------------------------------------------------------------
  // Token verification (src/utils/jwt.js)

  /**
   * verifyToken: fails with "JWT_SECRET is not defined" when the secret is
   * unset or empty, with "Invalid token" when the signature check `check`
   * rejects the token, and otherwise returns the decoded payload.
   */
  function VerifyToken(token: string, secret: Option<string>, check: (string, string) -> Option<Payload>): (r: Result<Payload, string>)
    ensures r.Failure? ==> r.error == SecretMissing || r.error == InvalidToken
    ensures (secret.None? || secret.value == "") <==> r == Failure(SecretMissing)
    ensures r.Success? <==> secret.Some? && secret.value != "" && check(token, secret.value).Some?
    ensures r.Success? ==> r.value == check(token, secret.value).value
  {
    if secret.None? || secret.value == "" then Failure(SecretMissing)
    else match check(token, secret.value)
      case None => Failure(InvalidToken)
      case Some(p) => Success(p)
  }

  // ---------------------------------------------------------------------
  // The middleware

  /** What the middleware does for one request. */
  datatype Decision = Proceed(user: AuthUser) | Reject(status: int, error: string)

  /** The header is present and starts with "Bearer " (case-sensitive). */
  predicate HasBearer(header: Option<string>)
  {
    header.Some? && StartsWith(header.value, BearerPrefix)
  }

  /**
   * The middleware's decision for an `Authorization` header, given the
   * token verifier: proceed with the payload's user and name, or answer 401
   * with the message for the failure.
   */
  function Decide(header: Option<string>, verify: string -> Result<Payload, string>): (d: Decision)
    ensures d.Reject? ==> d.status == Unauthorized
    ensures d == Reject(Unauthorized, NoToken) <==> !HasBearer(header)
    ensures d.Proceed? <==> HasBearer(header) && verify(BearerToken(header.value)).Success?
    ensures d.Proceed? ==> HasBearer(header) && var p := verify(BearerToken(header.value)).value;
                           d.user == AuthUser(p.userId, p.username)
    ensures HasBearer(header) && d.Reject? ==>
              d.error == (if verify(BearerToken(header.value)).error == InvalidToken then TokenRejected else AuthFailed)
  {
    if !HasBearer(header) then Reject(Unauthorized, NoToken)
    else
      match verify(BearerToken(header.value))
      case Success(p) => Proceed(AuthUser(p.userId, p.username))
      case Failure(msg) => Reject(Unauthorized, if msg == InvalidToken then TokenRejected else AuthFailed)
  }

  /**
   * With the JWT verifier behind it, a bearer header is answered with
   * "Invalid or expired token" when the signature check fails and with
   * "Authentication failed" when the secret is missing.
   */
  lemma DecideWithJwt(header: string, secret: Option<string>, check: (string, string) -> Option<Payload>)
    requires StartsWith(header, BearerPrefix)
    ensures var token := BearerToken(header);
            var d := Decide(Some(header), t => VerifyToken(t, secret, check));
            && ((secret.None? || secret.value == "") ==> d == Reject(Unauthorized, AuthFailed))
            && (secret.Some? && secret.value != "" && check(token, secret.value).None? ==> d == Reject(Unauthorized, TokenRejected))
            && (secret.Some? && secret.value != "" && check(token, secret.value).Some? ==>
                  d == Proceed(AuthUser(check(token, secret.value).value.userId, check(token, secret.value).value.username)))
  {
  }

  class Request {
    var authorization: Option<string>
    var user: Option<AuthUser>

    constructor (authorization: Option<string>)
      ensures this.authorization == authorization && user == None
    {
      this.authorization := authorization;
      user := None;
    }
  }

  class Response {
    var status: Option<int>
    var error: Option<string>

    constructor ()
      ensures status == None && error == None
    {
      status := None;
      error := None;
    }
  }

  /**
   * authenticate: on success sets `req.user` to the payload's user and name
   * and calls the next handler once; on every failure answers 401 with the
   * failure's message, leaves `req.user` as it was and does not call next.
   */
  method Authenticate(req: Request, res: Response, verify: string -> Result<Payload, string>) returns (nextCalled: bool)
    modifies req, res
    ensures req.authorization == old(req.authorization)
    ensures var d := Decide(old(req.authorization), verify);
            && nextCalled == d.Proceed?
            && (d.Proceed? ==> req.user == Some(d.user) && res.status == old(res.status) && res.error == old(res.error))
            && (d.Reject? ==> req.user == old(req.user) && res.status == Some(d.status) && res.error == Some(d.error))
  {
    var authHeader := req.authorization;
    if authHeader.None? || !StartsWith(authHeader.value, BearerPrefix) {
      res.status, res.error := Some(Unauthorized), Some(NoToken);
      return false;
    }
    var token := BearerToken(authHeader.value);
    var decoded := verify(token);
    if decoded.Failure? {
      if decoded.error == InvalidToken {
        res.status, res.error := Some(Unauthorized), Some(TokenRejected);
        return false;
      }
      res.status, res.error := Some(Unauthorized), Some(AuthFailed);
      return false;
    }
    req.user := Some(AuthUser(decoded.value.userId, decoded.value.username));
    return true;
  }
}
