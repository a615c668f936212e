/**
  `PUT /api/auth/token/<token_id>`: validate the `revoke` flag of the body,
  then hand the token to `revoke_token` or `unrevoke_token`. Those helpers
  (which look the token up for the caller and may raise `TokenNotFound`)
  are not part of this model: they are the parameters `revoke` and
  `unrevoke`, and the reply records which of them, if any, was called.
*/
module TokenToggle {
  import opened PyJson
  import opened Web

  const MsgMissingRevoke: string := "Missing 'revoke' in body"
  const MsgRevokeNotBool: string := "'revoke' must be a boolean"
  const MsgRevoked: string := "Token revoked"
  const MsgUnrevoked: string := "Token unrevoked"
  const MsgTokenNotFound: string := "The specified token was not found"

  /** What a revoke or unrevoke helper does: finish, or raise `TokenNotFound`. */
  datatype HelperOutcome = Done | TokenNotFound

  /** A call the handler made into the token helpers. */
  datatype HelperCall =
    | RevokeCall(tokenId: string, identity: string)
    | UnrevokeCall(tokenId: string, identity: string)

  /** How the body's `revoke` flag reads. */
  datatype RevokeFlag =
    | Missing          // falsy body, or `revoke` absent or null
    | NotBool          // `revoke` present but not a boolean
    | NoGet            // a truthy body that is not a dict: `.get` raises
    | Flag(b: bool)

  /** How the handler reads the flag: it parses the body leniently, treats
      a missing or falsy body like an absent flag, looks the flag up with a
      default of `None`, and then insists on a boolean. */
  function ReadRevoke(req: Request): RevokeFlag {
    match GetJson(req)
    case None => Missing
    case Some(body) =>
      if !Truthy(body) then Missing
      else match GetOrNone(body, "revoke")
        case Raised => NoGet
        case Value(v) =>
          if v == JNull then Missing
          else if v.JBool? then Flag(v.b)
          else NotBool
  }

  /** The flag stated on the request itself: a non-empty dict whose
      `revoke` entry is `true` or `false`. */
  lemma ReadRevokeFlag(req: Request, b: bool)
    ensures ReadRevoke(req) == Flag(b) <==>
      && GetJson(req).Some? && GetJson(req).value.JObj?
      && "revoke" in GetJson(req).value.fields
      && GetJson(req).value.fields["revoke"] == JBool(b)
  {
  }

  /** The flag is missing exactly when there is no truthy body, or the body
      is a dict whose `revoke` entry is absent or null. */
  lemma ReadRevokeMissing(req: Request)
    ensures ReadRevoke(req) == Missing <==>
      || GetJson(req).None?
      || !Truthy(GetJson(req).value)
      || (GetJson(req).value.JObj? &&
          ("revoke" !in GetJson(req).value.fields || GetJson(req).value.fields["revoke"] == JNull))
  {
  }

  /** A flag that is present but not a boolean is refused, and a truthy
      body that is not a dict makes the lookup itself raise. */
  lemma ReadRevokeRejects(req: Request)
    ensures ReadRevoke(req) == NotBool <==>
      && GetJson(req).Some? && GetJson(req).value.JObj?
      && "revoke" in GetJson(req).value.fields
      && GetJson(req).value.fields["revoke"] != JNull
      && !GetJson(req).value.fields["revoke"].JBool?
    ensures ReadRevoke(req) == NoGet <==>
      GetJson(req).Some? && Truthy(GetJson(req).value) && !GetJson(req).value.JObj?
  {
  }

  /** `modify_token`: the reply, and the helper call made on the way. */
  function ModifyToken(req: Request, tokenId: string, identity: string,
                       revoke: (string, string) -> HelperOutcome,
                       unrevoke: (string, string) -> HelperOutcome)
    : (res: (Reply, Option<HelperCall>))
    ensures res.1.None? <==> !ReadRevoke(req).Flag?
    ensures res.1 == Some(RevokeCall(tokenId, identity)) <==> ReadRevoke(req) == Flag(true)
    ensures res.1 == Some(UnrevokeCall(tokenId, identity)) <==> ReadRevoke(req) == Flag(false)
    ensures ReadRevoke(req) == Missing ==> res.0 == Reply(400, Message("error", MsgMissingRevoke))
    ensures ReadRevoke(req) == NotBool ==> res.0 == Reply(400, Message("error", MsgRevokeNotBool))
    ensures ReadRevoke(req) == NoGet ==> res.0 == ServerError
    ensures res.0.Reply? && res.0.status == 404 <==>
      || (ReadRevoke(req) == Flag(true) && revoke(tokenId, identity) == TokenNotFound)
      || (ReadRevoke(req) == Flag(false) && unrevoke(tokenId, identity) == TokenNotFound)
    ensures res.0.Reply? && res.0.status == 404 ==> res.0.body == Message("msg", MsgTokenNotFound)
    ensures res.0 == Reply(200, Message("msg", MsgRevoked)) <==>
      ReadRevoke(req) == Flag(true) && revoke(tokenId, identity) == Done
    ensures res.0 == Reply(200, Message("msg", MsgUnrevoked)) <==>
      ReadRevoke(req) == Flag(false) && unrevoke(tokenId, identity) == Done
  {
    assert Message("msg", MsgRevoked) != Message("msg", MsgUnrevoked) by {
      assert MsgRevoked[6] != MsgUnrevoked[6];
      assert Message("msg", MsgRevoked).fields["msg"] != Message("msg", MsgUnrevoked).fields["msg"];
    }
    match ReadRevoke(req)
    case Missing => (Reply(400, Message("error", MsgMissingRevoke)), None)
    case NotBool => (Reply(400, Message("error", MsgRevokeNotBool)), None)
    case NoGet => (ServerError, None)
    case Flag(b) =>
      if b then
        var reply := match revoke(tokenId, identity)
          case Done => Reply(200, Message("msg", MsgRevoked))
          case TokenNotFound => Reply(404, Message("msg", MsgTokenNotFound));
        (reply, Some(RevokeCall(tokenId, identity)))
      else
        var reply := match unrevoke(tokenId, identity)
          case Done => Reply(200, Message("msg", MsgUnrevoked))
          case TokenNotFound => Reply(404, Message("msg", MsgTokenNotFound));
        (reply, Some(UnrevokeCall(tokenId, identity)))
  }

  /** A body the handler rejects makes no helper call, so its reply is the
      same whatever the helpers would have done. */
  lemma RejectedBodyIgnoresHelpers(req: Request, tokenId: string, identity: string,
                                   revoke1: (string, string) -> HelperOutcome,
                                   unrevoke1: (string, string) -> HelperOutcome,
                                   revoke2: (string, string) -> HelperOutcome,
                                   unrevoke2: (string, string) -> HelperOutcome)
    requires !ReadRevoke(req).Flag?
    ensures ModifyToken(req, tokenId, identity, revoke1, unrevoke1)
         == ModifyToken(req, tokenId, identity, revoke2, unrevoke2)
  {
  }

  /** Revoking and unrevoking an unknown token read the same to the
      caller. */
  lemma NotFoundLooksTheSame(on: Request, off: Request, tokenId: string, identity: string,
                             revoke: (string, string) -> HelperOutcome,
                             unrevoke: (string, string) -> HelperOutcome)
    requires ReadRevoke(on) == Flag(true) && ReadRevoke(off) == Flag(false)
    requires revoke(tokenId, identity) == TokenNotFound && unrevoke(tokenId, identity) == TokenNotFound
    ensures ModifyToken(on, tokenId, identity, revoke, unrevoke).0
         == ModifyToken(off, tokenId, identity, revoke, unrevoke).0
         == Reply(404, Message("msg", MsgTokenNotFound))
  {
  }
}
