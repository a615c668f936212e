/**
  `POST /api/auth/login`: request checks, then an ordered decision on the
  user found by email: absent, social-login only, wrong password, or
  accepted. An accepted login ends in `create_access_token` for the user's
  public id followed by `add_token_to_database`; both belong to libraries
  and helpers outside this model, so the decision's result is the public id
  the token is issued for.

  `check_password_hash` is the parameter `check`, an uninterpreted relation
  between a stored hash and the submitted password value. It receives the
  raw JSON value, so it may also raise (for a password that is not a
  string); such a raise escapes the handler.
*/
module Login {
  import opened PyJson
  import opened Web
  import opened Exceptions
  import opened Checks
  import opened Store
  import SignUp

  const MsgNotJson: string := "not json request"
  const MsgNoEmail: string := "misising email"
  const MsgNoPassword: string := "missing password"
  const MsgNoUser: string := "user not found"
  const MsgSocialLogin: string := "user logged with social login"
  const MsgWrongPassword: string := "wrong password"

  /** The status the handler gives both an unknown email and a wrong
      password, so that neither tells which accounts exist. */
  const NotFound: int := 404

  /** `body[key]` after `key in body` held: raises for a list or a string. */
  function ReadField(body: Json, key: string): (r: Checked<Json>)
    ensures r.Accepted? <==> body.JObj? && key in body.fields
    ensures r.Accepted? ==> r.value == body.fields[key]
    ensures !r.Refused?
  {
    match Subscript(body, key)
    case Raised => Crashed
    case Value(v) => Accepted(v)
  }

  /** The user lookup: an unknown email is refused with 404. */
  function RequireUser(users: Users, email: Json): (r: Checked<User>)
    ensures r.Accepted? <==> FindByEmail(users, email).Some?
    ensures r.Accepted? ==> FindByEmail(users, email) == Some(r.value)
    ensures r.Refused? ==> r.e == NewAPIException(MsgNoUser, Some(NotFound), None)
  {
    match FindByEmail(users, email)
    case None => Refused(NewAPIException(MsgNoUser, Some(NotFound), None))
    case Some(u) => Accepted(u)
  }

  /** A social-login account has no password hash and cannot log in here. */
  function RequireHash(u: User): (r: Checked<string>)
    ensures r.Accepted? <==> u.passwordHash.Some?
    ensures r.Accepted? ==> u.passwordHash == Some(r.value)
    ensures r.Refused? ==> r.e == ApiError(MsgSocialLogin)
  {
    match u.passwordHash
    case None => Refused(ApiError(MsgSocialLogin))
    case Some(h) => Accepted(h)
  }

  /** The part of `login` after the body has been read. */
  function LoginBody(body: Json, users: Users, check: (string, Json) -> Py<bool>): (r: Checked<string>)
    ensures r.Accepted? ==> body.JObj? && "email" in body.fields && "password" in body.fields
  {
    var _ :- RequireKey(body, "email", MsgNoEmail);
    var _ :- RequireKey(body, "password", MsgNoPassword);
    var email :- ReadField(body, "email");
    var user :- RequireUser(users, email);
    var hash :- RequireHash(user);
    // `body['password']` cannot raise here: `body['email']` succeeded, so the
    // body is a dict, and it holds "password"
    match check(hash, body.fields["password"])
    case Raised => Crashed
    case Value(ok) =>
      if !ok then Refused(NewAPIException(MsgWrongPassword, Some(NotFound), None))
      else Accepted(user.publicId)
  }

  /** `login`: `Accepted(id)` means a token is created for the public id `id`
      and recorded in the token ledger; `Refused(e)` is answered by the
      blueprint's error handler. */
  function Login(req: Request, users: Users, check: (string, Json) -> Py<bool>): (r: Checked<string>)
  {
    if !req.isJson then Refused(ApiError(MsgNotJson))
    else if GetJson(req).None? then Refused(ApiError(MsgNotJson))
    else LoginBody(GetJson(req).value, users, check)
  }

  /** The request checks of `login`, in order: a request that is not JSON
      or has no body, an `in` test that raises, a missing email, a missing
      password, and a body that answers `in` but is not a dict, so that
      reading `body['email']` raises. */
  lemma LoginRequestChecks(req: Request, users: Users, check: (string, Json) -> Py<bool>)
    ensures !req.isJson || GetJson(req).None? ==> Login(req, users, check) == Refused(ApiError(MsgNotJson))
    ensures req.isJson && GetJson(req).Some? ==>
      var body := GetJson(req).value;
      var r := Login(req, users, check);
      && (Contains(body, "email").Raised? ==> r == Crashed)
      && (Contains(body, "email") == Value(false) ==> r == Refused(ApiError(MsgNoEmail)))
      && (Contains(body, "email") == Value(true) && Contains(body, "password") == Value(false) ==>
            r == Refused(ApiError(MsgNoPassword)))
      && (Contains(body, "email") == Value(true) && Contains(body, "password") == Value(true) && !body.JObj? ==>
            r == Crashed)
  {
  }

  /** The credentials of a request succeed against the table: a JSON dict
      naming an email whose user has a password hash that the hash check
      accepts for the submitted password. */
  predicate CredentialsAccepted(req: Request, users: Users, check: (string, Json) -> Py<bool>, u: User) {
    && GetJson(req).Some?
    && var body := GetJson(req).value;
    && body.JObj?
    && "email" in body.fields && "password" in body.fields
    && FindByEmail(users, body.fields["email"]) == Some(u)
    && u.passwordHash.Some?
    && check(u.passwordHash.value, body.fields["password"]) == Value(true)
  }

  /** A token is issued exactly when the credentials are accepted, and it is
      issued for the public id of the user the email names. */
  lemma LoginIssuesIffAccepted(req: Request, users: Users, check: (string, Json) -> Py<bool>)
    ensures Login(req, users, check).Accepted?
      <==> exists u :: CredentialsAccepted(req, users, check, u)
    ensures forall u :: CredentialsAccepted(req, users, check, u) ==> Login(req, users, check) == Accepted(u.publicId)
  {
    if Login(req, users, check).Accepted? {
      var body := GetJson(req).value;
      var u := FindByEmail(users, body.fields["email"]).value;
      assert CredentialsAccepted(req, users, check, u);
    }
  }

  /** Once the request carries both fields in a JSON dict, the decision on
      the user runs in this order: unknown email 404, social-login account
      400, a hash check that raises escapes the handler, rejected password
      404, otherwise a token for the user's public id. */
  lemma LoginDecisionOrder(req: Request, users: Users, check: (string, Json) -> Py<bool>)
    requires GetJson(req).Some? && GetJson(req).value.JObj?
    requires "email" in GetJson(req).value.fields && "password" in GetJson(req).value.fields
    ensures var m := GetJson(req).value.fields;
      var r := Login(req, users, check);
      && (FindByEmail(users, m["email"]).None? ==> r == Refused(NewAPIException(MsgNoUser, Some(404), None)))
      && (FindByEmail(users, m["email"]).Some? ==>
            var u := FindByEmail(users, m["email"]).value;
            && (u.passwordHash.None? ==> r == Refused(NewAPIException(MsgSocialLogin, None, None)))
            && (u.passwordHash.Some? && check(u.passwordHash.value, m["password"]).Raised? ==> r == Crashed)
            && (u.passwordHash.Some? && check(u.passwordHash.value, m["password"]) == Value(false) ==>
                  r == Refused(NewAPIException(MsgWrongPassword, Some(404), None)))
            && (u.passwordHash.Some? && check(u.passwordHash.value, m["password"]) == Value(true) ==>
                  r == Accepted(u.publicId)))
  {
  }

  /** Every refusal is a 400 or a 404 without payload; a failure other than
      the request checks is one of the three decisions on the user. */
  lemma LoginRefusalStatus(req: Request, users: Users, check: (string, Json) -> Py<bool>)
    requires Login(req, users, check).Refused?
    ensures var e := Login(req, users, check).e;
      && e.payload.None?
      && (e.statusCode == 404 <==> e.error == MsgNoUser || e.error == MsgWrongPassword)
      && (e.statusCode == 400 <==> e.error in {MsgNotJson, MsgNoEmail, MsgNoPassword, MsgSocialLogin})
  {
  }

  /** The login request naming an email and a password. */
  function CredentialsRequest(email: string, password: string): Request {
    Request(true, Some(JObj(map["email" := JStr(email), "password" := JStr(password)])))
  }

  /** A user inserted by sign-up can log in with the email and password it
      signed up with, and the token is issued for its public id, as long as
      the hash check accepts a password against its own hash. */
  lemma CreatedUserCanLogIn(users: Users, d: SignUp.Draft, publicId: string, normalize: Json -> string,
                            hash: string -> string, check: (string, Json) -> Py<bool>)
    requires check(hash(d.password), JStr(d.password)) == Value(true)
    ensures var after := users[d.email := SignUp.NewUser(d, publicId, normalize, hash)];
      Login(CredentialsRequest(d.email, d.password), after, check) == Accepted(publicId)
  {
    var after := users[d.email := SignUp.NewUser(d, publicId, normalize, hash)];
    var login := CredentialsRequest(d.email, d.password);
    assert GetJson(login).value.fields["email"] == JStr(d.email);
    assert FindByEmail(after, JStr(d.email)) == Some(after[d.email]);
    LoginDecisionOrder(login, after, check);
  }

  /** Sign-up followed by login: after a sign-up answered 201, the same
      email and password log in and receive a token for the new account's
      public id. */
  lemma SignUpThenLogin(req: Request, users: Users, publicId: string, normalize: Json -> string,
                        hash: string -> string, check: (string, Json) -> Py<bool>)
    ensures var (reply, after) := SignUp.SignUp(req, users, publicId, normalize, hash);
      reply == SignUp.CreatedReply ==>
        var d := SignUp.ValidateSignUp(req).value;
        check(hash(d.password), JStr(d.password)) == Value(true) ==>
          Login(CredentialsRequest(d.email, d.password), after, check) == Accepted(publicId)
  {
    var (reply, after) := SignUp.SignUp(req, users, publicId, normalize, hash);
    if reply == SignUp.CreatedReply {
      var d := SignUp.ValidateSignUp(req).value;
      if check(hash(d.password), JStr(d.password)) == Value(true) {
        CreatedUserCanLogIn(users, d, publicId, normalize, hash, check);
      }
    }
  }
}
