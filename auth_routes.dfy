/**
 * The `/auth/login` and `/auth/signup` handlers over the user table.
 *
 * Each handler runs its checks in a fixed order, and each check has its own
 * answer: the body's schema (400), the lookup by email (401 on login, 400
 * on signup when the email is taken), the password (401), and then the
 * token. A failing store gives 500.
 */
module AuthRoutes {
  import opened Wrappers
  import opened Js
  import opened Tokens

  /** A row of the user table; `password` holds the bcrypt hash, never the plaintext. */
  datatype User = User(id: string, email: string, password: string)

  /** The `user` object of a reply: id and email, no password. */
  datatype PublicUser = PublicUser(id: string, email: string)

  /** The JSON body of a login or signup request. */
  datatype Credentials = Credentials(email: Field<string>, password: Field<string>)

  datatype AuthReply =
    | Session(status: int, token: string, user: PublicUser)
    | Failure(status: int, message: string, details: Option<string>)

  /** Where the user table throws, if it does: on the lookup by email or on the insert. */
  datatype Fault = NoFault | LookupFails(reason: string) | CreateFails(reason: string)

  /**
   * The process environment and the libraries the handlers call: the token
   * service, the password hasher, zod's email check, `JWT_SECRET` and
   * `NODE_ENV`.
   */
  datatype Deps = Deps(
    jwt: Jwt,
    bcrypt: Bcrypt,
    isEmail: string -> bool,
    jwtSecret: Option<string>,
    nodeEnv: Option<string>)

  const MinPasswordLength: nat := 6
  const InvalidInputMessage: string := "Invalid input"
  const InvalidCredentialsMessage: string := "Invalid credentials"
  const UserExistsMessage: string := "User already exists"
  const ServerErrorMessage: string := "Server error"
  const DatabaseErrorMessage: string := "Database error"

  /**
   * `loginSchema` and `signupSchema`, which are the same schema: an email, and
   * a password of at least six characters as JavaScript counts them (UTF-16
   * code units).
   */
  predicate CredentialsValid(body: Credentials, isEmail: string -> bool)
  {
    && body.email.Present? && isEmail(body.email.value)
    && body.password.Present? && Utf16Length(body.password.value) >= MinPasswordLength
  }

  /**
   * Six code units suffice: three characters beyond the Basic Multilingual
   * Plane (three emoji, say) make a long enough password, while three
   * ordinary characters do not.
   */
  lemma PasswordLengthInCodeUnits(body: Credentials, isEmail: string -> bool)
    requires body.email.Present? && isEmail(body.email.value)
    requires body.password.Present? && |body.password.value| == 3
    ensures (forall i :: 0 <= i < 3 ==> body.password.value[i] as int >= 0x10000) ==> CredentialsValid(body, isEmail)
    ensures (forall i :: 0 <= i < 3 ==> body.password.value[i] as int < 0x10000) ==> !CredentialsValid(body, isEmail)
  {
    var p := body.password.value;
    if forall i :: 0 <= i < 3 ==> p[i] as int >= 0x10000 {
      Utf16LengthOfAstral(p);
    }
    if forall i :: 0 <= i < 3 ==> p[i] as int < 0x10000 {
      Utf16LengthOfPlane(p);
    }
  }

  /** The token issued to `u`: signed over `{ userId, email }` at `now`, valid for one day. */
  function IssueToken(u: User, deps: Deps, now: int): string
  {
    deps.jwt.sign(Claims(u.id, u.email), SigningSecret(deps.jwtSecret), now, TokenLifetime)
  }

  /** The 500 answer of signup's store failures: the reason is shown only under `NODE_ENV=development`. */
  function DatabaseFailure(reason: string, nodeEnv: Option<string>): (reply: AuthReply)
    ensures reply.Failure? && reply.status == 500 && reply.message == DatabaseErrorMessage
    ensures reply.details.Some? <==> nodeEnv == Some("development")
    ensures reply.details.Some? ==> reply.details.value == reason
  {
    Failure(500, DatabaseErrorMessage, if nodeEnv == Some("development") then Some(reason) else None)
  }

  /** The answer to `POST /auth/login` with the given body against the user table `users`. */
  function LoginReply(users: map<string, User>, body: Credentials, deps: Deps, fault: Fault, now: int): (reply: AuthReply)
    ensures reply.Session? ==> reply.status == 200 && body.email.Present? && body.email.value in users
    ensures reply.Failure? ==> reply.status in {400, 401, 500} && reply.details.None?
  {
    if !CredentialsValid(body, deps.isEmail) then Failure(400, InvalidInputMessage, None)
    else if fault.LookupFails? then Failure(500, ServerErrorMessage, None)
    else
      var email, password := body.email.value, body.password.value;
      if email !in users || !deps.bcrypt.compare(password, users[email].password) then
        Failure(401, InvalidCredentialsMessage, None)
      else
        var u := users[email];
        Session(200, IssueToken(u, deps, now), PublicUser(u.id, u.email))
  }

  /** The answer to `POST /auth/signup` and the user table afterwards. */
  datatype SignupOutcome = SignupOutcome(reply: AuthReply, users: map<string, User>)

  /**
   * Signup with the given body: `freshId` is the id the table assigns to a
   * new row and `salt` the salt bcrypt draws.
   */
  function SignupResult(users: map<string, User>, body: Credentials, deps: Deps, fault: Fault,
                        freshId: string, salt: string, now: int): (out: SignupOutcome)
    ensures out.reply.Session? ==> out.reply.status == 201
    ensures out.reply.Failure? ==> out.reply.status in {400, 500}
  {
    if !CredentialsValid(body, deps.isEmail) then SignupOutcome(Failure(400, InvalidInputMessage, None), users)
    else if fault.LookupFails? then SignupOutcome(DatabaseFailure(fault.reason, deps.nodeEnv), users)
    else
      var email, password := body.email.value, body.password.value;
      if email in users then SignupOutcome(Failure(400, UserExistsMessage, None), users)
      else if fault.CreateFails? then SignupOutcome(DatabaseFailure(fault.reason, deps.nodeEnv), users)
      else
        var u := User(freshId, email, deps.bcrypt.hash(password, SaltRounds, salt));
        SignupOutcome(Session(201, IssueToken(u, deps, now), PublicUser(u.id, u.email)), users[email := u])
  }

  /** Every row is filed under its own email. */
  ghost predicate WellKeyed(users: map<string, User>)
  {
    forall e :: e in users ==> users[e].email == e
  }

  /** The schema is checked first: a malformed body is 400 "Invalid input", on login as on signup. */
  lemma SchemaCheckedFirst(users: map<string, User>, body: Credentials, deps: Deps, fault: Fault,
                           freshId: string, salt: string, now: int)
    requires !CredentialsValid(body, deps.isEmail)
    ensures LoginReply(users, body, deps, fault, now) == Failure(400, InvalidInputMessage, None)
    ensures SignupResult(users, body, deps, fault, freshId, salt, now)
         == SignupOutcome(Failure(400, InvalidInputMessage, None), users)
  {
  }

  /**
   * Login does not tell an unknown email from a wrong password: the table
   * without the user and the table with a user whose hash does not match
   * give the same answer.
   */
  lemma LoginHidesWhichCheckFailed(users: map<string, User>, body: Credentials, deps: Deps, now: int, u: User)
    requires CredentialsValid(body, deps.isEmail)
    requires body.email.value !in users
    requires !deps.bcrypt.compare(body.password.value, u.password)
    ensures LoginReply(users, body, deps, NoFault, now)
         == LoginReply(users[body.email.value := u], body, deps, NoFault, now)
         == Failure(401, InvalidCredentialsMessage, None)
  {
  }

  /** A successful login answers with a one-day token over the stored id and email, and with them alone. */
  lemma LoginSuccess(users: map<string, User>, body: Credentials, deps: Deps, now: int)
    requires WellKeyed(users)
    requires LoginReply(users, body, deps, NoFault, now).Session?
    ensures var u := users[body.email.value];
      && CredentialsValid(body, deps.isEmail)
      && deps.bcrypt.compare(body.password.value, u.password)
      && LoginReply(users, body, deps, NoFault, now)
         == Session(200, deps.jwt.sign(Claims(u.id, body.email.value), SigningSecret(deps.jwtSecret), now, TokenLifetime),
                    PublicUser(u.id, body.email.value))
  {
  }

  /** Signing up with a registered email is 400 "User already exists" and leaves the table as it was. */
  lemma SignupDuplicateRejected(users: map<string, User>, body: Credentials, deps: Deps, fault: Fault,
                                freshId: string, salt: string, now: int)
    requires CredentialsValid(body, deps.isEmail) && !fault.LookupFails?
    requires body.email.value in users
    ensures SignupResult(users, body, deps, fault, freshId, salt, now)
         == SignupOutcome(Failure(400, UserExistsMessage, None), users)
  {
  }

  /**
   * A signup that is not refused adds exactly one row, under the new email,
   * holding the hash of the password (never the password itself), and
   * answers 201 with a token over the new id and email.
   */
  lemma SignupAddsOneUser(users: map<string, User>, body: Credentials, deps: Deps, fault: Fault,
                          freshId: string, salt: string, now: int)
    requires deps.bcrypt.Sound()
    requires WellKeyed(users)
    requires SignupResult(users, body, deps, fault, freshId, salt, now).reply.Session?
    ensures var out := SignupResult(users, body, deps, fault, freshId, salt, now);
      var email, password := body.email.value, body.password.value;
      && email !in users
      && out.users.Keys == users.Keys + {email}
      && |out.users| == |users| + 1
      && (forall e :: e in users ==> out.users[e] == users[e])
      && out.users[email] == User(freshId, email, deps.bcrypt.hash(password, SaltRounds, salt))
      && out.users[email].password != password
      && deps.bcrypt.compare(password, out.users[email].password)
      && WellKeyed(out.users)
      && out.reply.status == 201 && out.reply.user == PublicUser(freshId, email)
  {
    var email, password := body.email.value, body.password.value;
    var u := User(freshId, email, deps.bcrypt.hash(password, SaltRounds, salt));
    var out := SignupResult(users, body, deps, fault, freshId, salt, now);
    assert email !in users && fault.NoFault?;
    assert out.users == users[email := u];
    assert out.users.Keys == users.Keys + {email};
  }

  /** Every refused signup leaves the table unchanged; its 500 answers show the reason only in development. */
  lemma SignupRefusalKeepsTable(users: map<string, User>, body: Credentials, deps: Deps, fault: Fault,
                                freshId: string, salt: string, now: int)
    requires SignupResult(users, body, deps, fault, freshId, salt, now).reply.Failure?
    ensures var out := SignupResult(users, body, deps, fault, freshId, salt, now);
      && out.users == users
      && (out.reply.status == 400 || out.reply.status == 500)
      && (out.reply.details.Some? <==> out.reply.status == 500 && deps.nodeEnv == Some("development"))
  {
  }

  /**
   * Signing up and then logging in with the same credentials succeeds, and
   * the token it returns verifies to the new user's id and email for a day.
   */
  lemma SignupThenLogin(users: map<string, User>, body: Credentials, deps: Deps,
                        freshId: string, salt: string, signedUpAt: int, loginAt: int, usedAt: int)
    requires deps.bcrypt.Sound() && deps.jwt.Sound()
    requires WellKeyed(users)
    requires SignupResult(users, body, deps, NoFault, freshId, salt, signedUpAt).reply.Session?
    requires loginAt <= usedAt < loginAt + TokenLifetime
    ensures var after := SignupResult(users, body, deps, NoFault, freshId, salt, signedUpAt).users;
      var reply := LoginReply(after, body, deps, NoFault, loginAt);
      && reply == Session(200, reply.token, PublicUser(freshId, body.email.value))
      && deps.jwt.verify(reply.token, SigningSecret(deps.jwtSecret), usedAt) == Some(Claims(freshId, body.email.value))
  {
    SignupAddsOneUser(users, body, deps, NoFault, freshId, salt, signedUpAt);
  }

  /** The user table and its two handlers. */
  class UserStore {
    var users: map<string, User>
    const deps: Deps

    ghost predicate Valid()
      reads this
    {
      WellKeyed(users)
    }

    constructor (deps: Deps)
      ensures Valid() && users == map[] && this.deps == deps
    {
      users := map[];
      this.deps := deps;
    }

    /** `POST /auth/login`: schema, lookup, password, token, in that order. */
    method Login(body: Credentials, fault: Fault, now: int) returns (reply: AuthReply)
      ensures reply == LoginReply(users, body, deps, fault, now)
    {
      if !CredentialsValid(body, deps.isEmail) {
        return Failure(400, InvalidInputMessage, None);
      }
      var email, password := body.email.value, body.password.value;
      if fault.LookupFails? {
        return Failure(500, ServerErrorMessage, None);
      }
      if email !in users {
        return Failure(401, InvalidCredentialsMessage, None);
      }
      var user := users[email];
      var isPasswordValid := deps.bcrypt.compare(password, user.password);
      if !isPasswordValid {
        return Failure(401, InvalidCredentialsMessage, None);
      }
      var token := IssueToken(user, deps, now);
      reply := Session(200, token, PublicUser(user.id, user.email));
    }

    /** `POST /auth/signup`: schema, lookup, hash, insert, token, in that order. */
    method Signup(body: Credentials, fault: Fault, freshId: string, salt: string, now: int) returns (reply: AuthReply)
      requires Valid()
      modifies this
      ensures Valid()
      ensures SignupOutcome(reply, users) == SignupResult(old(users), body, deps, fault, freshId, salt, now)
    {
      if !CredentialsValid(body, deps.isEmail) {
        return Failure(400, InvalidInputMessage, None);
      }
      var email, password := body.email.value, body.password.value;
      if fault.LookupFails? {
        return DatabaseFailure(fault.reason, deps.nodeEnv);
      }
      if email in users {
        return Failure(400, UserExistsMessage, None);
      }
      var hashedPassword := deps.bcrypt.hash(password, SaltRounds, salt);
      if fault.CreateFails? {
        return DatabaseFailure(fault.reason, deps.nodeEnv);
      }
      var user := User(freshId, email, hashedPassword);
      users := users[email := user];
      var token := IssueToken(user, deps, now);
      reply := Session(201, token, PublicUser(user.id, user.email));
    }
  }
}
