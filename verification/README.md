# Auth blueprint of coldy_lp, modelled in Dafny

This project models the request handling of the `auth` blueprint of a Flask
backend and its `APIException` error type:

- **sign-up** (`POST /api/auth/sign-up`): a fixed chain of checks on the JSON
  body, including an email pattern and a password-strength pattern. It is
  followed by one insert into the user table. The insert is rolled back when
  the email is already taken.
- **login** (`POST /api/auth/login`): the ordered decision on the user found
  by email. The user may be absent, may be a social-login account with no
  password hash, or may fail the hash check. Otherwise a token is issued for
  the user's public id.
- **token toggle** (`PUT /api/auth/token/<id>`): validation of the body's
  `revoke` flag, then a call to the revoke or the unrevoke helper.
- **logout everywhere** (`GET /api/auth/logout`): every non-revoked row of
  the token ledger owned by the caller is set to revoked.
- **errors**: `APIException`, its status-code default, `to_dict`, and the
  blueprint handler that serialises it.

Modules: `PyJson` (Python values of a JSON body and the `in`, `[]`, `.get`
and truthiness operations on them), `Web` (request and reply), `Exceptions`,
`Patterns` (the two regular expressions), `Checks` (a chain of checks where
the first failure wins), `Store` (the user table), `SignUp`, `Login`,
`TokenToggle` and `Logout` (the token ledger).

Modelling choices:

- A body is a Python value, not only a dict. `'email' in body` and
  `body['email']` on a list, a string, a number or `null` behave as in
  Python. When Python raises, the exception escapes the handler. This is
  modelled as `Crashed` / `ServerError`, which Flask answers with 500.
- Each regular expression is a predicate that says where the pieces of a
  match sit, since `re.search` backtracks over those positions. `^` matches
  only at the start, `.` never matches a newline, and `$` matches at the end
  or before one final newline. `\w` and `\d` are taken as their ASCII
  classes.
- The password pattern is proved equivalent to a plain rule. The subject,
  less one trailing newline, must be one line of at least 8 characters with
  a digit, a lower-case letter and an upper-case letter. Because of `$`,
  `"Abcdef12\n"` is accepted too. The same holds for an email with a
  trailing newline.
- The user table is a map from email to user, since email is the unique
  column. An `IntegrityError` on insert is modelled as "the email is
  already a key".
- Code this model cannot see is passed in as parameters:
  - `normalize` stands for `normalize_names`;
  - `hash` stands for the password hashing in the `User` model;
  - `check` stands for `check_password_hash`; it returns a boolean or raises, since it is handed the raw JSON value of the password;
  - `publicId` stands for the `uuid4` string;
  - `revoke` and `unrevoke` stand for the ledger helpers;
  - the caller identity stands for `get_jwt_identity()`.

Behaviour worth knowing:

- Sign-up only checks that `fname` and `lname` are present. It does not
  check that they are non-empty.
- Logout refuses a request that is not JSON with a 400, although the
  endpoint is a `GET`, which usually carries no body.
- Login keeps the message `"misising email"` as spelled.
- The 404 of the token toggle carries its text under `"msg"`, while every
  `APIException` reply carries it under `"error"`.
- The handlers do no case folding of emails; the model compares emails
  exactly.

## Model

| member | source | states |
|---|---|---|
| `Exceptions.NewAPIException` | app/utils/exceptions.py:3-11 | with no status code the exception carries 400; any status code that is given, 0 included, replaces it; the message and payload are kept |
| `Exceptions.ToDict` | app/utils/exceptions.py:13-16 | the keys are exactly the payload keys plus "error"; "error" holds the message; every other payload entry keeps its value |
| `Exceptions.RaisedReply` | app/utils/exceptions.py:9-16 | an exception raised with no payload reaches the client as exactly `{"error": message}`, under the given status or 400 |
| `Exceptions.PayloadMerge` | app/utils/exceptions.py:14-15 | a payload's own "error" entry is overwritten by the message; all other payload entries survive |
| `PyJson.Contains` | app/blueprints/api/auth.py:63 | Python `in` raises exactly on null, booleans and numbers; on a dict it is key membership |
| `Patterns.PasswordPatternCharacterised` | app/blueprints/api/auth.py:54 | the password pattern matches iff the subject, less one trailing newline, is one line of length at least 8 holding a digit, a lower-case and an upper-case letter |
| `Patterns.PasswordMatchIsSecure` | app/blueprints/api/auth.py:54 | wherever the password pattern matches, the subject, less one trailing newline, is one line of length at least 8 with a digit, a lower-case and an upper-case letter |
| `Patterns.SecurePasswordMatches` | app/blueprints/api/auth.py:54 | every such secure password is matched, with the leading `.*` empty and `$` at the end of its line |
| `Patterns.MatchHasOneAt` | app/blueprints/api/auth.py:52 | a match of the email pattern covers one line holding exactly one '@', the one between the local part and the domain |
| `Patterns.AcceptedEmailShape` | app/blueprints/api/auth.py:52 | every accepted email, less one trailing newline, is one line with exactly one '@', and its last '.' is followed by exactly 2 or 3 word characters |
| `Patterns.SuffixChainEnding` | app/blueprints/api/auth.py:52 | the `(\.\w{2,3})+` tail of an address ends in a dot and 2 or 3 word characters |
| `Patterns.SuffixChainChars` | app/blueprints/api/auth.py:52 | the `(\.\w{2,3})+` tail holds only dots and word characters, so no '@' and no newline |
| `Patterns.ExampleCredentialsAccepted` | app/blueprints/api/auth.py:52-54 | "a@b.com" matches the email pattern and "Abcdef12" matches the password pattern |
| `Checks.RequireKey` | app/blueprints/api/auth.py:63-64 | a request passes a presence check iff `key in body` is true, is refused with the given message iff it is false, and otherwise crashes |
| `Checks.Chain` | app/blueprints/api/auth.py:56-79 | a sequence of checks passes iff every check passes; otherwise its verdict is that of the first check that does not pass |
| `Checks.ChainFirstFailure` | app/blueprints/api/auth.py:56-79 | once all checks before k pass, a check k that does not pass decides the outcome |
| `Checks.ChainAppend` | app/blueprints/api/auth.py:56-79 | in two runs of checks in a row, the second matters only when the first passes |
| `SignUp.MatchField` | app/blueprints/api/auth.py:65-66 | accepted iff `body[key]` is a string the pattern matches; refused, with the given message, iff it is a string the pattern does not match; a failed read or a non-string crashes |
| `SignUp.PatternField` | app/blueprints/api/auth.py:63-71 | an accepted field is the string stored under the key and matches the pattern; a refusal carries the missing or invalid message |
| `SignUp.PresentField` | app/blueprints/api/auth.py:73-79 | a name is refused iff its key is absent, and is read as the value stored under the key |
| `SignUp.ValidateBody` | app/blueprints/api/auth.py:63-79 | every refusal of the body checks is a 400 without payload |
| `SignUp.ValidateNames` | app/blueprints/api/auth.py:73-79 | the name checks refuse only with the fname or lname message; an accepted draft keeps the validated email and password and takes `fname` and `lname` from the body |
| `SignUp.ValidateBodyAccepts` | app/blueprints/api/auth.py:63-79 | an accepted body is a dict holding all four keys; its email and password are strings that match their patterns; the draft holds exactly the four values of the body |
| `SignUp.ValidateBodyFollowsTable` | app/blueprints/api/auth.py:63-79 | the body checks decide exactly what their rows of the ordered table decide |
| `SignUp.ValidateSignUp` | app/blueprints/api/auth.py:56-79 | as `ValidateBody`, and acceptance needs a JSON request with a body |
| `SignUp.StepVerdict` | app/blueprints/api/auth.py:56-79 | each check, when it refuses, raises the message named for it |
| `SignUp.ValidateFollowsTable` | app/blueprints/api/auth.py:56-79 | the handler's chain decides exactly what the ordered table of checks (JSON, body, email present, email format, password present, password strength, fname, lname) decides |
| `SignUp.FirstFailingStepDecides` | app/blueprints/api/auth.py:56-79 | when every check before k passes and check k refuses, the reply is 400 `{"error": message of k}` and the user table is unchanged |
| `SignUp.SignUp` | app/blueprints/api/auth.py:81-95 | 201 `{"success": "created"}` iff validation passes and the email is new, and then exactly that user is added under its email; any other outcome leaves the table unchanged; a refused check gives the handler's reply to its exception; a validated request whose email is taken gives 400 "user already created - login instead"; the table stays keyed by email |
| `SignUp.SignUpTwice` | app/blueprints/api/auth.py:81-93 | after a sign-up answered 201, the same request again gives 400 "user already created - login instead" and changes nothing |
| `SignUp.AcceptedDraftIsWellFormed` | app/blueprints/api/auth.py:52-71 | an accepted sign-up carries a secure password and an email of the accepted shape |
| `Store.FindByEmail` | app/blueprints/api/auth.py:129 | the lookup finds a user iff the value is a string that is a key of the table; the user found is the row stored under it, and in a table keyed by email it carries that email |
| `Login.LoginBody` | app/blueprints/api/auth.py:123-140 | an accepted body is a dict holding both email and password |
| `Login.LoginRequestChecks` | app/blueprints/api/auth.py:116-129 | a request that is not JSON or has no body gets 400 "not json request"; an `in` test that raises crashes; a missing email gets 400 "misising email", then a missing password 400 "missing password"; a non-dict body holding both keys crashes on `body['email']` |
| `Login.LoginIssuesIffAccepted` | app/blueprints/api/auth.py:116-140 | a token is issued iff the request is a JSON dict whose email names a user with a password hash that the hash check returns True for, and it is issued for that user's public id |
| `Login.LoginDecisionOrder` | app/blueprints/api/auth.py:129-140 | for a well-formed request: absent user 404 "user not found"; null hash 400 "user logged with social login"; a hash check that raises escapes the handler; a hash check returning False 404 "wrong password"; otherwise a token for `public_id` |
| `Login.LoginRefusalStatus` | app/blueprints/api/auth.py:116-137 | every refusal has no payload; it is 404 exactly for "user not found" and "wrong password", and 400 for the request checks and the social-login account |
| `Login.CreatedUserCanLogIn` | app/blueprints/api/auth.py:81-93 | once the user built from a draft is stored under its email, a login with that email and password issues a token for its public id, provided the hash check returns True for a password against its own hash |
| `Login.SignUpThenLogin` | app/blueprints/api/auth.py:81-140 | after a successful sign-up, a login with the same email and password issues a token for the new public id, provided the hash check returns True for a password against its own hash |
| `TokenToggle.ReadRevokeFlag` | app/blueprints/api/auth.py:158-165 | the flag reads as `b` iff the body is a dict whose `revoke` entry is the boolean `b` |
| `TokenToggle.ReadRevokeMissing` | app/blueprints/api/auth.py:158-163 | the flag is missing iff there is no truthy body, or the body is a dict whose `revoke` entry is absent or null |
| `TokenToggle.ReadRevokeRejects` | app/blueprints/api/auth.py:158-165 | the flag is not a boolean iff the body is a dict whose `revoke` entry is present, not null and not a boolean; the lookup raises iff the body is truthy and not a dict |
| `TokenToggle.ModifyToken` | app/blueprints/api/auth.py:156-177 | no helper is called unless the flag is a boolean; a missing flag gives 400 "Missing 'revoke' in body" and a non-boolean gives 400 "'revoke' must be a boolean"; `true` calls revoke and `false` calls unrevoke; the reply is 404 iff the called helper raised `TokenNotFound`; 200 with the matching message otherwise |
| `TokenToggle.RejectedBodyIgnoresHelpers` | app/blueprints/api/auth.py:158-165 | for a rejected body the reply does not depend on the helpers at all |
| `TokenToggle.NotFoundLooksTheSame` | app/blueprints/api/auth.py:168-177 | `TokenNotFound` from revoke and from unrevoke produce the same 404 reply |
| `Logout.RevokeAllTokens` | app/blueprints/api/auth.py:187-191 | after the loop, every row of the caller is revoked, every other row is unchanged, and the key set is the same |
| `Logout.LogoutUser` | app/blueprints/api/auth.py:182-192 | a non-JSON request gives 400 "JSON request only" and leaves the ledger unchanged; otherwise the reply is 200 `{"success": "user logged out"}` and the caller is logged out everywhere |
| `Logout.LoggedOutUnique` | app/blueprints/api/auth.py:186-191 | the ledger after a logout is determined by the ledger and the caller |
| `Logout.LogoutIdempotent` | app/blueprints/api/auth.py:186-191 | after a logout the caller has no active token, and a second logout changes nothing |
| `Logout.LogoutOnlyRevokes` | app/blueprints/api/auth.py:187-189 | no row is unrevoked; rows of other identities are unchanged; owner, type and expiry never change |
| `Logout.LogoutTouchesOnlyActiveRows` | app/blueprints/api/auth.py:187-189 | only rows the query returned are changed |

## Left out

- `check_if_token_revoked` (app/blueprints/api/auth.py:31-33) is not modelled. It only delegates to `is_token_revoked` in app/utils/helpers.py, which is not part of this model.
- `get_tokens` (app/blueprints/api/auth.py:145-151) and `prune_db` (app/blueprints/api/auth.py:195-199) are not modelled. They only call `get_user_tokens` and `prune_database` in app/utils/helpers.py, which is not part of this model.
- `revoke_token` and `unrevoke_token` are not modelled. They are parameters that either finish or raise `TokenNotFound`. The ownership check and the ledger writes they do are not part of this model.
- `add_token_to_database`, `create_access_token` and `serialize_public` are not modelled. An accepted login is the public id the token is issued for. The 200 reply carrying the token and the user's public fields is not modelled.
- `normalize_names`, password hashing, `check_password_hash` and `uuid4` are foreign code, so they are parameters. A failure inside `normalize_names` is not modelled.
- Unicode `\w` and `\d` are not modelled. Python 3 matches non-ASCII letters and digits with these classes; the model uses the ASCII classes only.
- Patterns.AcceptedEmailShape: states one direction only. Every accepted address has the stated shape, but not every string of that shape is accepted; the pattern itself (`Patterns.EmailPatternMatches`) is the exact definition.
- Patterns.EmailPatternMatches: matching time is not modelled. The nested quantifier `\w+([\.-]?\w+)*` makes Python's backtracking `re` take time exponential in the length of a long local part that has no '@'; the predicate only says whether a match exists.
- Store.FindByEmail: a login email that is not a string is assumed to match no user. What SQLAlchemy does with such a filter value is not modelled.
- The collation of the database is not modelled. A case-insensitive collation would make both the login lookup by email and the unique email index ignore case; the model compares emails exactly.
- An `IntegrityError` from a column other than email is not modelled. Transactions, concurrency and session handling are not modelled either.
- The payload of `APIException` is only modelled as absent or a string-keyed dict. Python also accepts other dict-able values, but the blueprint never passes a payload.
- Flask wiring is not modelled: routing, `jwt_required`, blueprint registration, the app factory (app/__init__.py) and configuration (config.py).
