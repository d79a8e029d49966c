/**
 * The browser's authentication service: it calls the two auth endpoints and
 * keeps the session token in the single `localStorage` entry `token`. The
 * HTTP call itself is not modelled; each operation is handed the way its
 * request ended.
 */
module AuthService {
  import opened Wrappers
  import opened Js

  /** The base URL used when `REACT_APP_API_URL` is unset or empty. */
  const DefaultApiUrl: string := "http://localhost:5000/api"

  datatype Credentials = Credentials(email: string, password: string)

  /** The body of a successful answer of either auth endpoint; `token` is None when the property is missing. */
  datatype AuthResponse = AuthResponse(token: Option<string>, userId: string, email: string)

  /**
   * The stored token after a login whose request ended with `response`: the
   * returned token when the request succeeded and the token is truthy, and
   * otherwise what was stored before.
   */
  function TokenAfterLogin(stored: Option<string>, response: Outcome<AuthResponse>): Option<string>
  {
    if response.Returned? && Truthy(response.value.token) then response.value.token else stored
  }

  /** A login that throws, or returns no usable token, leaves the stored token as it was. */
  lemma UnsuccessfulLoginKeepsToken(stored: Option<string>, response: Outcome<AuthResponse>)
    requires response.Thrown? || !Truthy(response.value.token)
    ensures TokenAfterLogin(stored, response) == stored
  {
  }

  /** After a login, the session is authenticated exactly when it was before or the login returned a token. */
  lemma LoginAuthenticates(stored: Option<string>, response: Outcome<AuthResponse>)
    ensures Truthy(TokenAfterLogin(stored, response))
        <==> Truthy(stored) || (response.Returned? && Truthy(response.value.token))
  {
  }

  /** Repeating a login that ended the same way stores the same token. */
  lemma LoginIdempotent(stored: Option<string>, response: Outcome<AuthResponse>)
    ensures TokenAfterLogin(TokenAfterLogin(stored, response), response) == TokenAfterLogin(stored, response)
  {
  }

  /** The `token` entry of the browser's `localStorage`, and the service's operations on it. */
  class TokenStore {
    var token: Option<string>

    constructor (stored: Option<string>)
      ensures token == stored
    {
      token := stored;
    }

    /**
     * `login`: post the credentials; if the answer carries a truthy token,
     * store it; hand back the answer, or rethrow the request's error.
     */
    method Login(credentials: Credentials, response: Outcome<AuthResponse>) returns (result: Outcome<AuthResponse>)
      modifies this
      ensures token == TokenAfterLogin(old(token), response)
      ensures result == response
    {
      if response.Thrown? {
        return response;
      }
      if Truthy(response.value.token) {
        token := response.value.token;
      }
      result := response;
    }

    /** `signup`: post the credentials and hand back the answer; the stored token is not touched. */
    method Signup(credentials: Credentials, response: Outcome<AuthResponse>) returns (result: Outcome<AuthResponse>)
      ensures result == response
    {
      result := response;
    }

    /** `logout`: remove the stored token. */
    method Logout()
      modifies this
      ensures token == None
    {
      token := None;
    }

    /** `getCurrentToken`: the stored token, or null. */
    method GetCurrentToken() returns (t: Option<string>)
      ensures t == token
    {
      t := token;
    }

    /** `isAuthenticated`: whether a non-empty token is stored. */
    method IsAuthenticated() returns (b: bool)
      ensures b <==> token.Some? && token.value != ""
    {
      var t := GetCurrentToken();
      b := Truthy(t);
    }
  }

  /** After `logout`, there is no current token and the session is not authenticated. */
  method LogoutSignsOut(store: TokenStore) returns (current: Option<string>, authenticated: bool)
    modifies store
    ensures current == None && !authenticated
  {
    store.Logout();
    current := store.GetCurrentToken();
    authenticated := store.IsAuthenticated();
  }

  /** A signup between two reads of the token leaves it as it was. */
  method SignupKeepsToken(store: TokenStore, credentials: Credentials, response: Outcome<AuthResponse>)
    returns (before: Option<string>, after: Option<string>)
    ensures before == after
  {
    before := store.GetCurrentToken();
    var _ := store.Signup(credentials, response);
    after := store.GetCurrentToken();
  }

  /** A login that returns a truthy token authenticates the session, whatever was stored before. */
  method LoginThenAuthenticated(store: TokenStore, credentials: Credentials, t: string, userId: string, email: string)
    returns (current: Option<string>, authenticated: bool)
    requires t != ""
    modifies store
    ensures current == Some(t) && authenticated
  {
    var _ := store.Login(credentials, Returned(AuthResponse(Some(t), userId, email)));
    current := store.GetCurrentToken();
    authenticated := store.IsAuthenticated();
  }
}
