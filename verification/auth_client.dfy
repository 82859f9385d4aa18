/**
 * Authentication helpers of the front end (src/utils/authAPI.ts): the headers
 * of an authenticated call, and what an authentication error does to the
 * stored credentials. Local storage is the value `Storage`.
 */
module AuthClient {
  import opened Wrappers
  import opened Strings
  import Auth

  /** The headers of an authenticated call. */
  datatype Headers = Headers(contentType: string, authorization: Option<string>)

  /** The `token` and `user` entries of local storage. */
  datatype Storage = Storage(token: Option<string>, user: Option<string>)

  const Json: string := "application/json"

  /** `getAuthHeaders`, given the stored token. */
  function AuthHeaders(token: Option<string>): Headers {
    Headers(Json, if Truthy(token) then Some("Bearer " + token.value) else None)
  }

  /** The content type is always JSON; the Authorization header is present exactly when a
      non-empty token is stored, and is then `Bearer ` and the token. */
  lemma AuthHeadersSpec(token: Option<string>)
    ensures AuthHeaders(token).contentType == Json
    ensures AuthHeaders(token).authorization.Some? <==> Truthy(token)
    ensures Truthy(token) ==> AuthHeaders(token).authorization == Some("Bearer " + token.value)
  {
  }

  /** `handleAuthError`, given `error?.response?.status`: whether it was an authentication
      error, and the storage after it. */
  function HandleAuthError(status: Option<int>, storage: Storage): (bool, Storage) {
    if status == Some(401) || status == Some(403) then (true, Storage(None, None))
    else (false, storage)
  }

  /** It reports an authentication error exactly for status 401 or 403, and then forgets
      the token and the user; for anything else storage is untouched. */
  lemma HandleAuthErrorSpec(status: Option<int>, storage: Storage)
    ensures HandleAuthError(status, storage).0 <==> status == Some(401) || status == Some(403)
    ensures HandleAuthError(status, storage).0 ==> HandleAuthError(status, storage).1 == Storage(None, None)
    ensures !HandleAuthError(status, storage).0 ==> HandleAuthError(status, storage).1 == storage
  {
  }

  /** The backend reads back the token the front end sends, for a token without spaces;
      a call made without a token is refused with 401. */
  lemma ServerReadsClientToken(token: Option<string>)
    ensures Truthy(token) && ' ' !in token.value ==>
              Auth.BearerToken(AuthHeaders(token).authorization) == token
    ensures !Truthy(token) ==>
              Auth.Authenticate(AuthHeaders(token).authorization, (t: string) => Some(t)) == Failure(Auth.TokenRequired)
  {
    if Truthy(token) && ' ' !in token.value {
      Auth.BearerTokenOfHeader("Bearer", token.value);
      assert "Bearer " + token.value == "Bearer" + " " + token.value;
    }
  }

  /** End to end: with a verifier that accepts what the signer signs, the token a login
      returns, stored and sent through `getAuthHeaders`, lets the next request through as
      the user who logged in, provided the token is non-empty and has no space. */
  lemma LoginTokenAuthenticates(username: Option<string>, password: Option<string>,
                                sign: Auth.User -> string, verify: string -> Option<Auth.User>)
    requires forall u :: verify(sign(u)) == Some(u)
    ensures var login := Auth.Login(username, password, sign);
            login.Success? && login.value.0 != [] && ' ' !in login.value.0 ==>
              Auth.Authenticate(AuthHeaders(Some(login.value.0)).authorization, verify) == Success(login.value.1)
  {
    var login := Auth.Login(username, password, sign);
    if login.Success? && login.value.0 != [] && ' ' !in login.value.0 {
      Auth.LoginSpec(username, password, sign);
      ServerReadsClientToken(Some(login.value.0));
      assert verify(login.value.0) == Some(login.value.1);
    }
  }
}
