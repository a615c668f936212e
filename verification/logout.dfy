/**
  The token ledger (the `TokenBlacklist` table: one row per issued token,
  keyed by its `jti`) and `GET /api/auth/logout`, which revokes every
  token of the caller that is not revoked yet.
*/
module Logout {
  import opened PyJson
  import opened Web
  import opened Exceptions

  datatype TokenType = Access | Refresh

  /** A ledger row. `expires` is an absolute time stamp. */
  datatype Entry = Entry(tokenType: TokenType, userIdentity: string, revoked: bool, expires: int)

  type Jti = string

  type Ledger = map<Jti, Entry>

  const MsgJsonOnly: string := "JSON request only"

  /** The reply to a completed logout. */
  const LoggedOutReply: Reply := Reply(200, Message("success", "user logged out"))

  /** `TokenBlacklist.query.filter_by(user_identity=identity, revoked=False)`. */
  function ActiveTokens(ledger: Ledger, identity: string): (ids: set<Jti>)
    ensures ids <= ledger.Keys
    ensures forall j | j in ids :: ledger[j].userIdentity == identity && !ledger[j].revoked
    ensures forall j | j in ledger && ledger[j].userIdentity == identity && !ledger[j].revoked :: j in ids
  {
    set j | j in ledger && ledger[j].userIdentity == identity && !ledger[j].revoked
  }

  /** The ledger after logging `identity` out everywhere, as a whole:
      the caller's rows are revoked and every other row is as it was. */
  predicate LoggedOut(ledger: Ledger, identity: string, after: Ledger) {
    && after.Keys == ledger.Keys
    && forall j | j in ledger ::
         after[j] == if ledger[j].userIdentity == identity then ledger[j].(revoked := true) else ledger[j]
  }

  /** The loop of `logout_user`: set `revoked` on every row the query
      returned, one row at a time, in whatever order the query gives. */
  method RevokeAllTokens(ledger: Ledger, identity: string) returns (after: Ledger)
    ensures LoggedOut(ledger, identity, after)
  {
    var tokens := ActiveTokens(ledger, identity);
    after := ledger;
    var pending := tokens;
    while pending != {}
      invariant pending <= tokens
      invariant after.Keys == ledger.Keys
      invariant forall j | j in ledger ::
        after[j] == if j in tokens && j !in pending then ledger[j].(revoked := true) else ledger[j]
      decreases pending
    {
      var j :| j in pending;
      after := after[j := after[j].(revoked := true)];
      pending := pending - {j};
    }
  }

  /** `logout_user`: a request that is not JSON is refused with 400 and
      leaves the ledger alone; otherwise every token of the caller ends up
      revoked. */
  method LogoutUser(req: Request, identity: string, ledger: Ledger) returns (reply: Reply, after: Ledger)
    ensures !req.isJson ==> reply == Handle(ApiError(MsgJsonOnly)) && reply.status == 400 && after == ledger
    ensures req.isJson ==> reply == LoggedOutReply && LoggedOut(ledger, identity, after)
  {
    if !req.isJson {
      return Handle(ApiError(MsgJsonOnly)), ledger;
    }
    after := RevokeAllTokens(ledger, identity);
    reply := LoggedOutReply;
  }

  /** The logged-out ledger is determined by the ledger and the caller. */
  lemma LoggedOutUnique(ledger: Ledger, identity: string, a: Ledger, b: Ledger)
    requires LoggedOut(ledger, identity, a) && LoggedOut(ledger, identity, b)
    ensures a == b
  {
  }

  /** After a logout the caller has no active token left, and a second
      logout changes nothing: its query returns no row. */
  lemma LogoutIdempotent(ledger: Ledger, identity: string, once: Ledger, twice: Ledger)
    requires LoggedOut(ledger, identity, once) && LoggedOut(once, identity, twice)
    ensures ActiveTokens(once, identity) == {}
    ensures twice == once
  {
    forall j | j in once
      ensures twice[j] == once[j]
    {
    }
  }

  /** Logging out never unrevokes a row, and rows of other identities keep
      every field. */
  lemma LogoutOnlyRevokes(ledger: Ledger, identity: string, after: Ledger)
    requires LoggedOut(ledger, identity, after)
    ensures forall j | j in ledger && ledger[j].revoked :: after[j].revoked
    ensures forall j | j in ledger && ledger[j].userIdentity != identity :: after[j] == ledger[j]
    ensures forall j | j in ledger ::
      && after[j].userIdentity == ledger[j].userIdentity
      && after[j].tokenType == ledger[j].tokenType
      && after[j].expires == ledger[j].expires
  {
  }

  /** The caller's rows that were already revoked are left exactly as they
      were, so the loop only writes the rows its query returned. */
  lemma LogoutTouchesOnlyActiveRows(ledger: Ledger, identity: string, after: Ledger)
    requires LoggedOut(ledger, identity, after)
    ensures forall j | j in ledger && after[j] != ledger[j] :: j in ActiveTokens(ledger, identity)
  {
  }
}
