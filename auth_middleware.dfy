/**
 * The bearer-token guard placed in front of every product route: it reads
 * the `Authorization` header, takes the second space-separated field as the
 * token, verifies it, and either answers 401 or records the caller's
 * identity on the request and hands the request on.
 */
module AuthMiddleware {
  import opened Wrappers
  import opened Js
  import opened Tokens

  const MissingTokenMessage: string := "Authentication token is required"
  const InvalidTokenMessage: string := "Invalid or expired token"

  /** `authHeader.split(' ')[1]`: the second space-separated field, or undefined. */
  function BearerToken(header: string): (token: Option<string>)
    ensures token.Some? <==> ' ' in header
    ensures token.Some? ==> ' ' !in token.value
  {
    var parts := Split(header, ' ');
    if |parts| > 1 then Some(parts[1]) else None
  }

  /** What the guard does with one request. */
  datatype Decision =
    | Reject(status: int, message: string)   // a response is written; `next` is not called
    | Proceed(user: Claims)                  // `req.user` is set; `next` is called

  /**
   * The guard's decision for a request with the given `Authorization` header,
   * the token verifier, the `JWT_SECRET` setting and the current second.
   */
  function Decide(header: Option<string>, jwt: Jwt, secretEnv: Option<string>, now: int): (d: Decision)
    ensures d.Reject? ==> d.status == 401
    ensures d.Reject? ==> d.message == MissingTokenMessage || d.message == InvalidTokenMessage
    ensures d.Proceed? ==>
      && header.Some?
      && Truthy(BearerToken(header.value))
      && jwt.verify(BearerToken(header.value).value, SigningSecret(secretEnv), now) == Some(d.user)
  {
    if !Truthy(header) then Reject(401, MissingTokenMessage)
    else
      var token := BearerToken(header.value);
      if !Truthy(token) then Reject(401, MissingTokenMessage)
      else
        match jwt.verify(token.value, SigningSecret(secretEnv), now)
        case None => Reject(401, InvalidTokenMessage)
        case Some(claims) => Proceed(claims)
  }

  /** A missing or empty header is answered "token is required". */
  lemma MissingHeaderRejected(header: Option<string>, jwt: Jwt, secretEnv: Option<string>, now: int)
    requires header.None? || header.value == ""
    ensures Decide(header, jwt, secretEnv, now) == Reject(401, MissingTokenMessage)
  {
  }

  /** `"Bearer " + t` carries exactly `t`, when `t` has no space. */
  lemma BearerTokenOfScheme(scheme: string, t: string)
    requires ' ' !in scheme && ' ' !in t
    ensures BearerToken(scheme + " " + t) == Some(t)
  {
    SplitAfterHead(scheme, ' ', t);
    assert scheme + " " + t == scheme + [' '] + t;
    SplitWithoutSeparator(t, ' ');
  }

  /** The bare scheme word has no second field, so it is answered "token is required". */
  lemma SchemeAloneRejected(jwt: Jwt, secretEnv: Option<string>, now: int)
    ensures Decide(Some("Bearer"), jwt, secretEnv, now) == Reject(401, MissingTokenMessage)
  {
    assert ' ' !in "Bearer";
  }

  /** Two spaces after the scheme leave an empty second field: "token is required". */
  lemma DoubleSpaceRejected(t: string, jwt: Jwt, secretEnv: Option<string>, now: int)
    ensures Decide(Some("Bearer  " + t), jwt, secretEnv, now) == Reject(401, MissingTokenMessage)
  {
    var h := "Bearer  " + t;
    assert h == "Bearer" + [' '] + ([' '] + t);
    SplitAfterHead("Bearer", ' ', [' '] + t);
    SplitAfterHead("", ' ', t);
    assert [' '] + t == "" + [' '] + t;
    assert BearerToken(h) == Some("");
  }

  /** The first word is never looked at: any scheme word works exactly like `Bearer`. */
  lemma SchemeWordUnchecked(scheme: string, rest: string, jwt: Jwt, secretEnv: Option<string>, now: int)
    requires ' ' !in scheme
    ensures Decide(Some(scheme + " " + rest), jwt, secretEnv, now)
         == Decide(Some("Bearer " + rest), jwt, secretEnv, now)
  {
    assert scheme + " " + rest == scheme + [' '] + rest;
    assert "Bearer " + rest == "Bearer" + [' '] + rest;
    SplitAfterHead(scheme, ' ', rest);
    SplitAfterHead("Bearer", ' ', rest);
    assert BearerToken(scheme + " " + rest) == BearerToken("Bearer " + rest);
  }

  /** A token the verifier refuses is answered "invalid or expired". */
  lemma UnverifiedTokenRejected(t: string, jwt: Jwt, secretEnv: Option<string>, now: int)
    requires t != "" && ' ' !in t
    requires jwt.verify(t, SigningSecret(secretEnv), now).None?
    ensures Decide(Some("Bearer " + t), jwt, secretEnv, now) == Reject(401, InvalidTokenMessage)
  {
    BearerTokenOfScheme("Bearer", t);
    assert "Bearer" + " " + t == "Bearer " + t;
  }

  /**
   * A token signed with the configured secret is refused as "invalid or
   * expired" from the second its one-day lifetime ends.
   */
  lemma ExpiredTokenRejected(c: Claims, jwt: Jwt, secretEnv: Option<string>, iat: int, now: int)
    requires jwt.Sound()
    requires now >= iat + TokenLifetime
    ensures var t := jwt.sign(c, SigningSecret(secretEnv), iat, TokenLifetime);
      Decide(Some("Bearer " + t), jwt, secretEnv, now) == Reject(401, InvalidTokenMessage)
  {
    var t := jwt.sign(c, SigningSecret(secretEnv), iat, TokenLifetime);
    UnverifiedTokenRejected(t, jwt, secretEnv, now);
  }

  /** The request and response of one exchange, as far as the guard touches them. */
  class Exchange {
    var user: Option<Claims>      // `req.user`
    var status: Option<int>       // status of the response written, if any
    var message: Option<string>   // `message` of the JSON body written, if any
    var nextCalls: nat            // how often `next()` has been called

    constructor ()
      ensures user.None? && status.None? && message.None? && nextCalls == 0
    {
      user, status, message, nextCalls := None, None, None, 0;
    }
  }

  /**
   * `authMiddleware(req, res, next)`: writes the response and stops, or sets
   * `req.user` and calls `next` once; never both.
   */
  method Authenticate(ex: Exchange, header: Option<string>, jwt: Jwt, secretEnv: Option<string>, now: int)
    modifies ex
    ensures match Decide(header, jwt, secretEnv, now)
      case Reject(code, msg) =>
        && ex.status == Some(code) && ex.message == Some(msg)
        && ex.user == old(ex.user) && ex.nextCalls == old(ex.nextCalls)
      case Proceed(claims) =>
        && ex.user == Some(claims) && ex.nextCalls == old(ex.nextCalls) + 1
        && ex.status == old(ex.status) && ex.message == old(ex.message)
  {
    if !Truthy(header) {
      ex.status, ex.message := Some(401), Some(MissingTokenMessage);
      return;
    }
    var token := BearerToken(header.value);
    if !Truthy(token) {
      ex.status, ex.message := Some(401), Some(MissingTokenMessage);
      return;
    }
    var decoded := jwt.verify(token.value, SigningSecret(secretEnv), now);
    if decoded.None? {
      ex.status, ex.message := Some(401), Some(InvalidTokenMessage);
      return;
    }
    ex.user := decoded;
    ex.nextCalls := ex.nextCalls + 1;
  }

  /** On a fresh exchange the guard produces exactly one of a 401 response and one call of `next`. */
  method AuthenticateFresh(header: Option<string>, jwt: Jwt, secretEnv: Option<string>, now: int)
    returns (responded: bool, nextCalls: nat)
    ensures responded != (nextCalls == 1)
    ensures nextCalls <= 1
    ensures responded <==> Decide(header, jwt, secretEnv, now).Reject?
  {
    var ex := new Exchange();
    Authenticate(ex, header, jwt, secretEnv, now);
    responded, nextCalls := ex.status.Some?, ex.nextCalls;
  }
}
