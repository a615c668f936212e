/**
  The user table as the handlers use it. Email is the table's unique
  column, so the table is a map from email to user record: inserting a
  second user with a taken email is the store's integrity failure.
*/
module Store {
  import opened PyJson

  /** A user row. `passwordHash` is `None` for an account created through
      social login, which has no local password. */
  datatype User = User(publicId: string, email: string, passwordHash: Option<string>, fname: string, lname: string)

  type Users = map<string, User>

  /** Each row sits under its own email. */
  predicate KeyedByEmail(users: Users) {
    forall e | e in users :: users[e].email == e
  }

  /** `User.query.filter_by(email=value).first()`. A value that is not a
      string matches no row. */
  function FindByEmail(users: Users, value: Json): (r: Option<User>)
    ensures r.Some? <==> value.JStr? && value.s in users
    ensures r.Some? ==> r.value == users[value.s]
    ensures r.Some? && KeyedByEmail(users) ==> r.value.email == value.s
  {
    match value
    case JStr(e) => if e in users then Some(users[e]) else None
    case _ => None
  }
}
