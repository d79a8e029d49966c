/**
 * The browser and the server together: a login answer reaches the token
 * store, the stored token travels back in the `Authorization` header, and
 * the token guard hands the caller's id to the product handlers.
 */
module SessionFlow {
  import opened Wrappers
  import opened Js
  import opened Tokens
  import opened AuthRoutes
  import opened AuthMiddleware
  import opened ProductModel
  import opened ProductRoutes
  import AuthService
  import ProductService

  /** How the browser's HTTP client ends a call to an auth endpoint: a 2xx answer resolves with its body, any other rejects. */
  function ClientView(reply: AuthReply): (r: Outcome<AuthService.AuthResponse>)
    ensures r.Returned? <==> reply.Session? && 200 <= reply.status < 300
    ensures r.Returned? ==> r.value == AuthService.AuthResponse(Some(reply.token), reply.user.id, reply.user.email)
  {
    if reply.Session? && 200 <= reply.status < 300 then
      Returned(AuthService.AuthResponse(Some(reply.token), reply.user.id, reply.user.email))
    else if reply.Session? then Thrown("Request failed")
    else Thrown(reply.message)
  }

  /**
   * A successful login stores its token in the browser, and for a day every
   * request the browser then sends passes the token guard as the user who
   * logged in.
   */
  lemma LoginThenAuthorizedRequest(users: map<string, User>, body: Credentials, deps: Deps,
                                   stored: Option<string>, loginAt: int, usedAt: int)
    requires deps.jwt.Sound()
    requires WellKeyed(users)
    requires LoginReply(users, body, deps, NoFault, loginAt).Session?
    requires loginAt <= usedAt < loginAt + TokenLifetime
    ensures var token := AuthService.TokenAfterLogin(stored, ClientView(LoginReply(users, body, deps, NoFault, loginAt)));
      && Truthy(token)
      && Decide(ProductService.AuthorizationOf(ProductService.AuthHeader(token)), deps.jwt, deps.jwtSecret, usedAt)
         == Proceed(Claims(users[body.email.value].id, body.email.value))
  {
    LoginSuccess(users, body, deps, loginAt);
    var u := users[body.email.value];
    var claims := Claims(u.id, body.email.value);
    var t := deps.jwt.sign(claims, SigningSecret(deps.jwtSecret), loginAt, TokenLifetime);
    assert t != "" && ' ' !in t;
    assert deps.jwt.verify(t, SigningSecret(deps.jwtSecret), usedAt) == Some(claims);
    ProductService.AuthHeaderAccepted(t, deps.jwt, deps.jwtSecret, usedAt, claims);
  }

  /**
   * The day after, the same stored token no longer passes: the guard answers
   * 401 "Invalid or expired token" and the user has to log in again.
   */
  lemma LoginTokenExpires(users: map<string, User>, body: Credentials, deps: Deps,
                          stored: Option<string>, loginAt: int, usedAt: int)
    requires deps.jwt.Sound()
    requires WellKeyed(users)
    requires LoginReply(users, body, deps, NoFault, loginAt).Session?
    requires usedAt >= loginAt + TokenLifetime
    ensures var token := AuthService.TokenAfterLogin(stored, ClientView(LoginReply(users, body, deps, NoFault, loginAt)));
      && Truthy(token)
      && Decide(ProductService.AuthorizationOf(ProductService.AuthHeader(token)), deps.jwt, deps.jwtSecret, usedAt)
         == Reject(401, InvalidTokenMessage)
  {
    LoginSuccess(users, body, deps, loginAt);
    var u := users[body.email.value];
    var claims := Claims(u.id, body.email.value);
    var t := deps.jwt.sign(claims, SigningSecret(deps.jwtSecret), loginAt, TokenLifetime);
    assert t != "" && ' ' !in t;
    ProductService.AuthHeaderRoundTrip(t);
    ExpiredTokenRejected(claims, deps.jwt, deps.jwtSecret, loginAt, usedAt);
  }

  /** A refused login leaves whatever token the browser had stored. */
  lemma RefusedLoginKeepsSession(users: map<string, User>, body: Credentials, deps: Deps, fault: Fault,
                                 stored: Option<string>, now: int)
    requires LoginReply(users, body, deps, fault, now).Failure?
    ensures AuthService.TokenAfterLogin(stored, ClientView(LoginReply(users, body, deps, fault, now))) == stored
  {
  }

  /**
   * `POST /products` with the token guard in front: a request the guard
   * refuses is answered 401 and changes nothing; otherwise the product is
   * created for the user the token names.
   */
  method GuardedCreate(store: ProductStore, header: Option<string>, jwt: Jwt, secretEnv: Option<string>, now: int,
                       body: ProductBody, storeFails: bool, freshId: string, createdAt: int)
    returns (reply: Reply)
    requires store.Valid()
    modifies store
    ensures store.Valid()
    ensures Decide(header, jwt, secretEnv, now).Reject? ==>
      && reply == ErrorReply(401, Decide(header, jwt, secretEnv, now).message)
      && store.products == old(store.products)
    ensures Decide(header, jwt, secretEnv, now).Proceed? && reply.ProductReply? ==>
      && reply.status == 201
      && reply.product.userId == Decide(header, jwt, secretEnv, now).user.userId
      && store.products == old(store.products)[reply.product.id := reply.product]
  {
    var ex := new Exchange();
    Authenticate(ex, header, jwt, secretEnv, now);
    if ex.status.Some? {
      return ErrorReply(ex.status.value, ex.message.value);
    }
    reply := store.Create(ex.user.value.userId, body, storeFails, freshId, createdAt);
  }
}
