/**
 * Authentication on the backend (backend/auth.js): reading the bearer token of
 * a request, and the demonstration login.
 *
 * JWT signing and verification are parameters: `verify` gives the decoded
 * claims of a valid token and `None` otherwise; `sign` gives the token for a user.
 */
module Auth {
  import opened Wrappers
  import opened Strings

  /** An HTTP error reply: the status and the `error` text. */
  datatype HttpError = HttpError(status: nat, message: string)

  /** The user a login creates. */
  datatype User = User(id: nat, username: string, role: string)

  const TokenRequired: HttpError := HttpError(401, "Access token required")
  const TokenRejected: HttpError := HttpError(403, "Invalid or expired token")
  const CredentialsRequired: HttpError := HttpError(400, "Username and password required")

  /** `authHeader && authHeader.split(' ')[1]`, `None` when that is falsy. */
  function BearerToken(header: Option<string>): Option<string> {
    if !Truthy(header) then None
    else
      var fields := Split(header.value, ' ');
      if |fields| >= 2 && fields[1] != [] then Some(fields[1]) else None
  }

  /** The token is the second space-separated field of the header: a header is refused
      exactly when it is absent or empty or has no non-empty second field. */
  lemma BearerTokenSpec(header: Option<string>)
    ensures BearerToken(header).None? <==>
              !Truthy(header) || |Split(header.value, ' ')| < 2 || Split(header.value, ' ')[1] == []
    ensures BearerToken(header).Some? ==>
              BearerToken(header).value == Split(header.value, ' ')[1] && ' ' !in BearerToken(header).value
  {
    if Truthy(header) {
      SplitFieldsAreSeparatorFree(header.value, ' ');
    }
  }

  /** A header `<scheme> <token>` yields the token, whatever the scheme, when neither holds a
      space. */
  lemma BearerTokenOfHeader(scheme: string, token: string)
    requires ' ' !in scheme && ' ' !in token && token != []
    ensures BearerToken(Some(scheme + " " + token)) == Some(token)
  {
    var parts := [scheme, token];
    assert Join(parts, ' ') == scheme + " " + token;
    SplitJoin(parts, ' ');
  }

  /** `authenticateToken`: the decoded claims when the request may proceed. */
  function Authenticate<Claims>(header: Option<string>, verify: string -> Option<Claims>): Result<Claims, HttpError> {
    match BearerToken(header)
    case None => Failure(TokenRequired)
    case Some(token) =>
      match verify(token)
      case None => Failure(TokenRejected)
      case Some(claims) => Success(claims)
  }

  /** No token gives 401; a token that does not verify gives 403; otherwise the request
      proceeds with the claims of that token. */
  lemma AuthenticateSpec<Claims>(header: Option<string>, verify: string -> Option<Claims>)
    ensures BearerToken(header).None? ==> Authenticate(header, verify) == Failure(TokenRequired)
    ensures BearerToken(header).Some? && verify(BearerToken(header).value).None? ==>
              Authenticate(header, verify) == Failure(TokenRejected)
    ensures Authenticate(header, verify).Success? <==>
              BearerToken(header).Some? && verify(BearerToken(header).value).Some?
    ensures Authenticate(header, verify).Success? ==>
              Authenticate(header, verify).value == verify(BearerToken(header).value).value
  {
  }

  /** `login`: the token and the user, or the 400 reply. */
  function Login(username: Option<string>, password: Option<string>, sign: User -> string): Result<(string, User), HttpError> {
    if !Truthy(username) || !Truthy(password) then Failure(CredentialsRequired)
    else
      var user := User(1, username.value, "user");
      Success((sign(user), user))
  }

  /** Any non-empty username and password log in, as user 1 with role `user` and the given
      name, with the token signed for exactly that user; anything else gets 400. */
  lemma LoginSpec(username: Option<string>, password: Option<string>, sign: User -> string)
    ensures Login(username, password, sign).Failure? <==> !Truthy(username) || !Truthy(password)
    ensures Login(username, password, sign).Failure? ==> Login(username, password, sign).error == CredentialsRequired
    ensures Login(username, password, sign).Success? ==>
              var (token, user) := Login(username, password, sign).value;
              user == User(1, username.value, "user") && token == sign(user)
  {
  }
}
