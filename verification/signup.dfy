/**
  `POST /api/auth/sign-up`: a fixed chain of request checks, then one insert
  into the user table, rolled back when the email is already taken.

  Collaborators the handler calls but whose code is not part of this model
  are parameters: `normalize` stands for `normalize_names`, `hash` for the
  password hashing the `User` model performs, and `publicId` for the
  freshly generated `uuid4` string.
*/
module SignUp {
  import opened PyJson
  import opened Web
  import opened Exceptions
  import opened Patterns
  import opened Checks
  import opened Store

  const MsgJsonOnly: string := "json request only"
  const MsgNoBody: string := "not body in request"
  const MsgNoEmail: string := "email not found in request"
  const MsgBadEmail: string := "invalid email format"
  const MsgNoPassword: string := "password not found in request"
  const MsgWeakPassword: string := "insecure password"
  const MsgNoFname: string := "fname not found in request"
  const MsgNoLname: string := "lname not found in request"
  const MsgDuplicate: string := "user already created - login instead"

  /** The reply to a created account. */
  const CreatedReply: Reply := Reply(201, Message("success", "created"))

  /** The fields of a request that passed every check, before the names are
      normalised and the password hashed. */
  datatype Draft = Draft(email: string, password: string, fname: Json, lname: Json)

  // ---------------------------------------------------------------------
  // The checks, in the handler's own words

  /** `elif not re.search(pattern, body[key]): raise APIException(invalid)`.
      `re.search` on anything but a string raises TypeError. */
  function MatchField(body: Json, key: string, matches: string -> bool, invalid: string): (r: Checked<string>)
    ensures r.Accepted? <==> Subscript(body, key).Value? && Subscript(body, key).value.JStr?
                             && matches(Subscript(body, key).value.s)
    ensures r.Accepted? ==> Subscript(body, key) == Value(JStr(r.value))
    ensures r.Refused? <==> Subscript(body, key).Value? && Subscript(body, key).value.JStr?
                            && !matches(Subscript(body, key).value.s)
    ensures r.Crashed? <==> Subscript(body, key).Raised? || !Subscript(body, key).value.JStr?
    ensures r.Refused? ==> r.e == ApiError(invalid)
  {
    match Subscript(body, key)
    case Raised => Crashed
    case Value(v) =>
      match v
      case JStr(s) => if matches(s) then Accepted(s) else Refused(ApiError(invalid))
      case _ => Crashed
  }

  /** `if 'key' not in body: raise APIException(missing)`, then `body[key]`
      as handed to `normalize_names`. */
  function PresentField(body: Json, key: string, missing: string): (r: Checked<Json>)
    ensures r.Accepted? <==> Subscript(body, key).Value?
    ensures r.Accepted? ==> r.value == body.fields[key]
    ensures r.Refused? <==> Contains(body, key) == Value(false)
    ensures r.Refused? ==> r.e == ApiError(missing)
  {
    match Contains(body, key)
    case Raised => Crashed
    case Value(present) =>
      if !present then Refused(ApiError(missing))
      else match Subscript(body, key)
        case Raised => Crashed
        case Value(v) => Accepted(v)
  }

  /** `if 'key' not in body: raise ...` followed by the pattern test on
      `body[key]`: the email block and the password block of `sign_up`. */
  function PatternField(body: Json, key: string, matches: string -> bool, missing: string, invalid: string)
    : (r: Checked<string>)
    ensures r.Accepted? ==> Subscript(body, key) == Value(JStr(r.value)) && matches(r.value)
    ensures r.Refused? ==> r.e == ApiError(missing) || r.e == ApiError(invalid)
  {
    var _ :- RequireKey(body, key, missing);
    MatchField(body, key, matches, invalid)
  }

  /** The checks of `sign_up` that read the body, in the handler's order. */
  function ValidateBody(body: Json): (r: Checked<Draft>)
    ensures r.Refused? ==> r.e.statusCode == 400 && r.e.payload.None?
  {
    var email :- PatternField(body, "email", EmailPatternMatches, MsgNoEmail, MsgBadEmail);
    var password :- PatternField(body, "password", PasswordPatternMatches, MsgNoPassword, MsgWeakPassword);
    ValidateNames(body, email, password)
  }

  /** The `fname` and `lname` blocks of `sign_up`. */
  function ValidateNames(body: Json, email: string, password: string): (r: Checked<Draft>)
    ensures r.Refused? ==> r.e == ApiError(MsgNoFname) || r.e == ApiError(MsgNoLname)
    ensures r.Accepted? ==> r.value.email == email && r.value.password == password
    ensures r.Accepted? ==> body.JObj? && "fname" in body.fields && "lname" in body.fields
    ensures r.Accepted? ==> body.fields["fname"] == r.value.fname && body.fields["lname"] == r.value.lname
  {
    var fname :- PresentField(body, "fname", MsgNoFname);
    var lname :- PresentField(body, "lname", MsgNoLname);
    Accepted(Draft(email, password, fname, lname))
  }

  /** An accepted body is a dict whose email and password are strings that
      match their patterns, and the draft holds its four fields. */
  lemma ValidateBodyAccepts(body: Json)
    requires ValidateBody(body).Accepted?
    ensures body.JObj?
    ensures var d := ValidateBody(body).value;
      && EmailPatternMatches(d.email) && PasswordPatternMatches(d.password)
      && "email" in body.fields && "password" in body.fields && "fname" in body.fields && "lname" in body.fields
      && body.fields["email"] == JStr(d.email)
      && body.fields["password"] == JStr(d.password)
      && body.fields["fname"] == d.fname
      && body.fields["lname"] == d.lname
  {
  }

  /** The validation part of `sign_up`; the draft it produces is what the
      insert is built from. */
  function ValidateSignUp(req: Request): (r: Checked<Draft>)
    ensures r.Refused? ==> r.e.statusCode == 400 && r.e.payload.None?
    ensures r.Accepted? ==> req.isJson && GetJson(req).Some? && GetJson(req).value.JObj?
    ensures r.Accepted? ==> EmailPatternMatches(r.value.email) && PasswordPatternMatches(r.value.password)
    ensures r.Accepted? ==>
      var m := GetJson(req).value.fields;
      && "email" in m && "password" in m && "fname" in m && "lname" in m
      && m["email"] == JStr(r.value.email)
      && m["password"] == JStr(r.value.password)
      && m["fname"] == r.value.fname
      && m["lname"] == r.value.lname
  {
    if !req.isJson then Refused(ApiError(MsgJsonOnly))
    else if GetJson(req).None? then Refused(ApiError(MsgNoBody))
    else
      var body := GetJson(req).value;
      if ValidateBody(body).Accepted? then ValidateBodyAccepts(body); ValidateBody(body)
      else ValidateBody(body)
  }

  // ---------------------------------------------------------------------
  // The same checks as a table

  /** The checks of `sign_up`, named after what each demands. */
  datatype Step =
    | JsonOnly | BodyPresent
    | EmailPresent | EmailFormat
    | PasswordPresent | PasswordStrength
    | FnamePresent | LnamePresent

  /** The order the handler runs them in. */
  const SignUpOrder: seq<Step> :=
    [JsonOnly, BodyPresent, EmailPresent, EmailFormat, PasswordPresent, PasswordStrength, FnamePresent, LnamePresent]

  /** The message each check raises when it refuses a request. */
  function StepMessage(step: Step): string {
    match step
    case JsonOnly => MsgJsonOnly
    case BodyPresent => MsgNoBody
    case EmailPresent => MsgNoEmail
    case EmailFormat => MsgBadEmail
    case PasswordPresent => MsgNoPassword
    case PasswordStrength => MsgWeakPassword
    case FnamePresent => MsgNoFname
    case LnamePresent => MsgNoLname
  }

  /** One check on its own, judged directly on the Python values involved.
      A check is only ever consulted once every earlier one has passed; an
      absent body reads as `None`, on which Python's `in` raises. */
  function StepVerdict(step: Step, req: Request): (v: Verdict)
    ensures v.Reject? ==> v.e == ApiError(StepMessage(step))
  {
    var body := match GetJson(req) case Some(b) => b case None => JNull;
    match step
    case JsonOnly => Need(req.isJson, MsgJsonOnly)
    case BodyPresent => Need(GetJson(req).Some?, MsgNoBody)
    case EmailPresent => KeyVerdict(body, "email", MsgNoEmail)
    case EmailFormat => FormatVerdict(body, "email", EmailPatternMatches, MsgBadEmail)
    case PasswordPresent => KeyVerdict(body, "password", MsgNoPassword)
    case PasswordStrength => FormatVerdict(body, "password", PasswordPatternMatches, MsgWeakPassword)
    case FnamePresent => KeyVerdict(body, "fname", MsgNoFname)
    case LnamePresent => KeyVerdict(body, "lname", MsgNoLname)
  }

  function KeyVerdict(body: Json, key: string, missing: string): Verdict {
    match Contains(body, key)
    case Raised => Crash
    case Value(present) => Need(present, missing)
  }

  function FormatVerdict(body: Json, key: string, matches: string -> bool, invalid: string): Verdict {
    if Subscript(body, key).Value? && Subscript(body, key).value.JStr?
    then Need(matches(Subscript(body, key).value.s), invalid)
    else Crash
  }

  /** The rows of the table that read the body. */
  function BodyVerdicts(body: Json): seq<Verdict> {
    FieldVerdicts(body, "email", EmailPatternMatches, MsgNoEmail, MsgBadEmail)
    + (FieldVerdicts(body, "password", PasswordPatternMatches, MsgNoPassword, MsgWeakPassword)
       + NameVerdicts(body))
  }

  /** The two rows of a field that must be present and match a pattern. */
  function FieldVerdicts(body: Json, key: string, matches: string -> bool, missing: string, invalid: string)
    : seq<Verdict>
  {
    [KeyVerdict(body, key, missing), FormatVerdict(body, key, matches, invalid)]
  }

  /** The rows of the two name fields. */
  function NameVerdicts(body: Json): seq<Verdict> {
    [KeyVerdict(body, "fname", MsgNoFname), KeyVerdict(body, "lname", MsgNoLname)]
  }

  function SignUpVerdicts(req: Request): (vs: seq<Verdict>)
    ensures |vs| == |SignUpOrder|
    ensures forall i | 0 <= i < |vs| :: vs[i] == StepVerdict(SignUpOrder[i], req)
  {
    [ StepVerdict(JsonOnly, req), StepVerdict(BodyPresent, req),
      StepVerdict(EmailPresent, req), StepVerdict(EmailFormat, req),
      StepVerdict(PasswordPresent, req), StepVerdict(PasswordStrength, req),
      StepVerdict(FnamePresent, req), StepVerdict(LnamePresent, req) ]
  }

  /** One field block of the handler decides what its two table rows
      decide. */
  lemma PatternFieldFollowsTable(body: Json, key: string, matches: string -> bool, missing: string, invalid: string)
    ensures PatternField(body, key, matches, missing, invalid).ToVerdict()
      == Chain(FieldVerdicts(body, key, matches, missing, invalid))
  {
  }

  lemma NamesFollowTable(body: Json, email: string, password: string)
    requires body.JObj?
    ensures ValidateNames(body, email, password).ToVerdict() == Chain(NameVerdicts(body))
  {
  }

  lemma ValidateBodyFollowsTable(body: Json)
    ensures ValidateBody(body).ToVerdict() == Chain(BodyVerdicts(body))
  {
    var e := FieldVerdicts(body, "email", EmailPatternMatches, MsgNoEmail, MsgBadEmail);
    var p := FieldVerdicts(body, "password", PasswordPatternMatches, MsgNoPassword, MsgWeakPassword);
    var n := NameVerdicts(body);
    PatternFieldFollowsTable(body, "email", EmailPatternMatches, MsgNoEmail, MsgBadEmail);
    ChainAppend(e, p + n);
    var email := PatternField(body, "email", EmailPatternMatches, MsgNoEmail, MsgBadEmail);
    if email.Accepted? {
      PatternFieldFollowsTable(body, "password", PasswordPatternMatches, MsgNoPassword, MsgWeakPassword);
      ChainAppend(p, n);
      var password := PatternField(body, "password", PasswordPatternMatches, MsgNoPassword, MsgWeakPassword);
      if password.Accepted? {
        NamesFollowTable(body, email.value, password.value);
      }
    }
  }

  /** The handler's chain of checks decides exactly what the table decides:
      the first check of the table that does not pass. */
  lemma ValidateFollowsTable(req: Request)
    ensures ValidateSignUp(req).ToVerdict() == Chain(SignUpVerdicts(req))
  {
    var body := match GetJson(req) case Some(b) => b case None => JNull;
    var head := [Need(req.isJson, MsgJsonOnly), Need(GetJson(req).Some?, MsgNoBody)];
    assert SignUpVerdicts(req) == head + BodyVerdicts(body);
    ChainAppend(head, BodyVerdicts(body));
    if Chain(head).Pass? {
      ValidateBodyFollowsTable(body);
    }
  }

  // ---------------------------------------------------------------------
  // The insert

  /** The row `sign_up` builds from a validated draft. */
  function NewUser(d: Draft, publicId: string, normalize: Json -> string, hash: string -> string): User {
    User(publicId, d.email, Some(hash(d.password)), normalize(d.fname), normalize(d.lname))
  }

  /** `sign_up`: the reply, and the user table after the commit or the
      rollback. */
  function SignUp(req: Request, users: Users, publicId: string, normalize: Json -> string, hash: string -> string)
    : (res: (Reply, Users))
    ensures KeyedByEmail(users) ==> KeyedByEmail(res.1)
    ensures res.0 == CreatedReply <==> ValidateSignUp(req).Accepted? && ValidateSignUp(req).value.email !in users
    ensures res.0 != CreatedReply ==> res.1 == users
    ensures res.0 == CreatedReply ==>
      var d := ValidateSignUp(req).value;
      res.1 == users[d.email := NewUser(d, publicId, normalize, hash)]
    ensures res.0.ServerError? <==> ValidateSignUp(req).Crashed?
    ensures res.0.Reply? && res.0 != CreatedReply ==> res.0.status == 400
    ensures ValidateSignUp(req).Refused? ==> res == (Handle(ValidateSignUp(req).e), users)
    ensures ValidateSignUp(req).Accepted? && ValidateSignUp(req).value.email in users ==>
      res == (Reply(400, Message("error", MsgDuplicate)), users)
  {
    match ValidateSignUp(req)
    case Crashed => (ServerError, users)
    case Refused(e) => (Handle(e), users)
    case Accepted(d) =>
      if d.email in users then
        // IntegrityError on the unique email column: rollback, then 400
        (Handle(ApiError(MsgDuplicate)), users)
      else
        (CreatedReply, users[d.email := NewUser(d, publicId, normalize, hash)])
  }

  /** The first check that fails decides the reply, under status 400 with
      that check's message, and no user is created. */
  lemma FirstFailingStepDecides(req: Request, users: Users, publicId: string, normalize: Json -> string,
                                hash: string -> string, k: int)
    requires 0 <= k < |SignUpOrder|
    requires forall j | 0 <= j < k :: StepVerdict(SignUpOrder[j], req).Pass?
    requires StepVerdict(SignUpOrder[k], req).Reject?
    ensures SignUp(req, users, publicId, normalize, hash)
      == (Reply(400, Message("error", StepMessage(SignUpOrder[k]))), users)
  {
    var vs := SignUpVerdicts(req);
    ChainFirstFailure(vs, k);
    ValidateFollowsTable(req);
    RaisedReply(StepMessage(SignUpOrder[k]), None);
  }

  /** A request that passes every check but names an email already in the
      table is answered 400 "user already created - login instead" and
      leaves the table as it was; signing up twice with the same request
      therefore creates one user. */
  lemma SignUpTwice(req: Request, users: Users, id1: string, id2: string, normalize: Json -> string,
                    hash: string -> string)
    ensures var (reply, after) := SignUp(req, users, id1, normalize, hash);
      reply == CreatedReply ==>
        SignUp(req, after, id2, normalize, hash) == (Reply(400, Message("error", MsgDuplicate)), after)
  {
    RaisedReply(MsgDuplicate, None);
  }

  /** What an accepted sign-up stores: a secure password and an address of
      the accepted shape. */
  lemma AcceptedDraftIsWellFormed(req: Request)
    requires ValidateSignUp(req).Accepted?
    ensures IsSecurePassword(ValidateSignUp(req).value.password)
    ensures HasEmailShape(StripFinalNewline(ValidateSignUp(req).value.email))
  {
    var d := ValidateSignUp(req).value;
    PasswordPatternCharacterised(d.password);
    AcceptedEmailShape(d.email);
  }
}
