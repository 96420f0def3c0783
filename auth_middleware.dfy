/**
 * The two request guards of the backend: `authenticate` reads a bearer
 * token (the scheme of section 2.1 of RFC 6750, matched case-sensitively),
 * checks it and attaches the current user to the request; `requireAdmin`
 * lets only an attached ADMIN through. Token verification is a parameter:
 * it yields the user id the token was issued for, or None when it rejects
 * the token.
 */
module AuthMiddleware {
  import opened Common
  import opened Store

  const BEARER_PREFIX: string := "Bearer "

  /** The request as the guards see it: the user `authenticate` attached, if any. */
  class Request {
    var user: Option<(Id, User)>

    constructor ()
      ensures user == None
    {
      user := None;
    }
  }

  /** The token of an `Authorization` header: what follows the first 7 characters, if the header starts with "Bearer ". */
  function BearerToken(header: Option<string>): (token: Option<string>)
    ensures token.Some? <==> header.Some? && StartsWith(header.value, BEARER_PREFIX)
    ensures token.Some? ==> header.value == BEARER_PREFIX + token.value
  {
    if header.Some? && header.value != "" && StartsWith(header.value, BEARER_PREFIX) then
      assert header.value == header.value[..7] + header.value[7..];
      Some(header.value[7..])
    else None
  }

  /** The header the frontend sends carries back exactly its token. */
  lemma BearerRoundTrip(token: string)
    ensures BearerToken(Some(BEARER_PREFIX + token)) == Some(token)
  {
  }

  /** The scheme name is matched with its case: "bearer " is refused. */
  lemma SchemeIsCaseSensitive(token: string)
    ensures BearerToken(Some("bearer " + token)) == None
  {
    assert ("bearer " + token)[0] != BEARER_PREFIX[0];
  }

  /** The outcome of a guard: the request goes on with this user, or is answered with an error. */
  datatype Gate = Pass(id: Id, user: User) | Refuse(reason: Reason)

  /** What `authenticate` decides for a header against the user table. */
  function AuthDecision(users: map<Id, User>, header: Option<string>, verify: string -> Option<Id>): (g: Gate)
    ensures g == Refuse(NoBearerToken) <==> BearerToken(header).None?
    ensures g == Refuse(TokenRejected) <==> BearerToken(header).Some? && verify(BearerToken(header).value).None?
    ensures g == Refuse(TokenUserGone) <==> (BearerToken(header).Some? && verify(BearerToken(header).value).Some?
      && verify(BearerToken(header).value).value !in users)
    ensures g.Pass? <==> (BearerToken(header).Some? && verify(BearerToken(header).value).Some?
      && verify(BearerToken(header).value).value in users)
    ensures g.Pass? ==> (BearerToken(header).Some? && verify(BearerToken(header).value) == Some(g.id)
      && g.id in users && g.user == users[g.id])
    ensures g.Refuse? ==> StatusOf(g.reason) == 401
  {
    var token := BearerToken(header);
    if token.None? then Refuse(NoBearerToken)
    else
      var id := verify(token.value);
      if id.None? then Refuse(TokenRejected)
      else if id.value !in users then Refuse(TokenUserGone)
      else Pass(id.value, users[id.value])
  }

  /**
   * `authenticate`: attaches the user on success and answers 401 otherwise,
   * leaving the request as it was.
   */
  method Authenticate(req: Request, users: map<Id, User>, header: Option<string>, verify: string -> Option<Id>)
    returns (denial: Option<Reason>)
    modifies req
    ensures var g := AuthDecision(users, header, verify);
      && (g.Pass? ==> denial.None? && req.user == Some((g.id, g.user)))
      && (g.Refuse? ==> denial == Some(g.reason) && req.user == old(req.user))
  {
    var g := AuthDecision(users, header, verify);
    if g.Refuse? {
      return Some(g.reason);
    }
    req.user := Some((g.id, g.user));
    denial := None;
  }

  /** `requireAdmin`: 401 with no attached user, 403 for a role other than ADMIN, else the request goes on. */
  function RequireAdmin(user: Option<(Id, User)>): (denial: Option<Reason>)
    ensures denial == Some(AuthenticationRequired) <==> user.None?
    ensures denial == Some(AdminRequired) <==> user.Some? && user.value.1.role != ADMIN
    ensures denial.None? <==> user.Some? && user.value.1.role == ADMIN
    ensures denial.Some? ==> StatusOf(denial.value) in {401, 403}
  {
    if user.None? then Some(AuthenticationRequired)
    else if user.value.1.role != ADMIN then Some(AdminRequired)
    else None
  }

  /**
   * The two guards in sequence on an admin route: the request reaches the
   * controller iff the token names a stored user whose role is ADMIN.
   */
  lemma AdminRouteAdmits(users: map<Id, User>, header: Option<string>, verify: string -> Option<Id>)
    ensures var g := AuthDecision(users, header, verify);
      (g.Pass? && RequireAdmin(Some((g.id, g.user))).None?) <==>
      (BearerToken(header).Some? && verify(BearerToken(header).value).Some?
       && verify(BearerToken(header).value).value in users
       && users[verify(BearerToken(header).value).value].role == ADMIN)
  {
  }
}
