/**
 * Invites: an administrator issues a single-use invite for an e-mail address
 * with a contract percent and a role; the invitee looks it up by its token
 * and redeems it once, which creates their account.
 */
module InviteController {
  import opened Common
  import opened Store
  import opened Email

  /** Where the frontend serves the signup page for a token. */
  const INVITE_URL_PREFIX: string := "http://localhost:3000/invite/"

  /** Invite tokens are unique (a constraint of the schema). */
  ghost predicate TokensUnique(invites: map<Id, Invite>)
  {
    forall a, b :: a in invites && b in invites && a != b ==> invites[a].token != invites[b].token
  }

  /** `findUnique({ where: { token } })` */
  function FindInvite(invites: map<Id, Invite>, token: string): (r: Option<Id>)
    requires TokensUnique(invites)
    ensures r.Some? ==> r.value in invites && invites[r.value].token == token
    ensures r.None? ==> forall id :: id in invites ==> invites[id].token != token
  {
    if exists id :: id in invites && invites[id].token == token then
      var id :| id in invites && invites[id].token == token;
      Some(id)
    else None
  }

  // ---------------------------------------------------------------------------
  // createInvite
  // ---------------------------------------------------------------------------

  /** The request's fields pass the four checks of `createInvite` that precede the lookups. */
  predicate InviteFieldsValid(email: Option<string>, contractPercent: Option<int>, role: Option<string>)
  {
    && Given(email) && contractPercent.Some? && Given(role)
    && ValidEmail(email.value) && PercentInRange(contractPercent.value) && ParseRole(role.value).Some?
  }

  /**
   * The answer of `createInvite`: the first failing check, or 201 with the
   * invite to insert. `token` is the value the store generates for the new
   * row; should it collide with an existing token the insert fails (500).
   * A contractPercent of 0 is present, so it passes the presence check.
   */
  function InviteDecision(users: map<Id, User>, invites: map<Id, Invite>, email: Option<string>, contractPercent: Option<int>,
                          role: Option<string>, token: string, now: Time): (r: Reply<Invite>)
    ensures r == Err(MissingFields) <==> !Given(email) || contractPercent.None? || !Given(role)
    ensures r == Err(InvalidEmail) <==> Given(email) && contractPercent.Some? && Given(role) && !ValidEmail(email.value)
    ensures r == Err(PercentOutOfRange) <==> (Given(email) && contractPercent.Some? && Given(role) && ValidEmail(email.value)
      && !PercentInRange(contractPercent.value))
    ensures r == Err(InvalidRole) <==> (Given(email) && contractPercent.Some? && Given(role) && ValidEmail(email.value)
      && PercentInRange(contractPercent.value) && ParseRole(role.value).None?)
    ensures r == Err(EmailTaken) <==> InviteFieldsValid(email, contractPercent, role) && EmailRegistered(users, email.value)
    ensures r == Err(UnusedInviteExists) <==> (InviteFieldsValid(email, contractPercent, role)
      && !EmailRegistered(users, email.value) && HasUnusedInvite(invites, email.value))
    ensures r == Err(InternalError) <==> (InviteFieldsValid(email, contractPercent, role)
      && !EmailRegistered(users, email.value) && !HasUnusedInvite(invites, email.value)
      && exists id :: id in invites && invites[id].token == token)
    ensures r.Ok? <==> (InviteFieldsValid(email, contractPercent, role)
      && !EmailRegistered(users, email.value) && !HasUnusedInvite(invites, email.value)
      && forall id :: id in invites ==> invites[id].token != token)
    ensures r.Ok? ==> (r.status == 201
      && r.body == Invite(email.value, token, contractPercent.value, ParseRole(role.value).value, false, None, now))
  {
    if !Given(email) || contractPercent.None? || !Given(role) then Err(MissingFields)
    else if !ValidEmail(email.value) then Err(InvalidEmail)
    else if !PercentInRange(contractPercent.value) then Err(PercentOutOfRange)
    else if ParseRole(role.value).None? then Err(InvalidRole)
    else if EmailRegistered(users, email.value) then Err(EmailTaken)
    else if HasUnusedInvite(invites, email.value) then Err(UnusedInviteExists)
    else if exists id :: id in invites && invites[id].token == token then Err(InternalError)
    else Ok(201, Invite(email.value, token, contractPercent.value, ParseRole(role.value).value, false, None, now))
  }

  /** Inserting an accepted invite keeps the invite table valid: still at most one unused invite per address. */
  lemma AcceptedInviteKeepsValid(users: map<Id, User>, invites: map<Id, Invite>, email: Option<string>, contractPercent: Option<int>,
                                 role: Option<string>, token: string, now: Time, id: Id)
    requires InvitesValid(invites) && id !in invites
    requires InviteDecision(users, invites, email, contractPercent, role, token, now).Ok?
    ensures InvitesValid(invites[id := InviteDecision(users, invites, email, contractPercent, role, token, now).body])
  {
    var inv := InviteDecision(users, invites, email, contractPercent, role, token, now).body;
    var t := invites[id := inv];
    forall a, b | a in t && b in t && a != b && !t[a].used && !t[b].used ensures t[a].email != t[b].email
    {
      if a == id {
        assert t[b] == invites[b];
      } else if b == id {
        assert t[a] == invites[a];
      }
    }
  }

  /** A second invite for an address that was just invited is refused with 409. */
  lemma SecondInviteRefused(users: map<Id, User>, invites: map<Id, Invite>, email: Option<string>, contractPercent: Option<int>,
                            role: Option<string>, token: string, token2: string, now: Time, id: Id)
    requires InviteDecision(users, invites, email, contractPercent, role, token, now).Ok?
    ensures var t := invites[id := InviteDecision(users, invites, email, contractPercent, role, token, now).body];
      InviteDecision(users, t, email, contractPercent, role, token2, now) == Err(UnusedInviteExists)
  {
    var inv := InviteDecision(users, invites, email, contractPercent, role, token, now).body;
    var t := invites[id := inv];
    assert id in t && t[id].email == email.value && !t[id].used;
  }

  /** The link sent to the invitee. */
  function InviteUrl(token: string): (url: string)
    ensures StartsWith(url, INVITE_URL_PREFIX)
  {
    INVITE_URL_PREFIX + token
  }

  /** The signup page recovers the token from the link. */
  lemma InviteUrlRoundTrip(token: string)
    ensures InviteUrl(token)[|INVITE_URL_PREFIX|..] == token
  {
  }

  datatype CreatedInvite = CreatedInvite(id: Id, invite: Invite, inviteUrl: string)

  /**
   * `createInvite`: on success exactly one unused invite is inserted (201)
   * and the reply carries its link; otherwise the store is unchanged.
   */
  method CreateInvite(db: Db, email: Option<string>, contractPercent: Option<int>, role: Option<string>, token: string, now: Time)
    returns (reply: Reply<CreatedInvite>)
    requires db.Valid()
    modifies db`invites, db`nextId
    ensures db.Valid()
    ensures var d := InviteDecision(db.users, old(db.invites), email, contractPercent, role, token, now);
      && (d.Err? ==> reply == Err(d.reason) && db.invites == old(db.invites))
      && (d.Ok? ==> (reply.Ok? && reply.status == 201 && reply.body.invite == d.body
                    && reply.body.id !in old(db.invites) && db.invites == old(db.invites)[reply.body.id := d.body]
                    && reply.body.inviteUrl == InviteUrl(token)))
  {
    var d := InviteDecision(db.users, db.invites, email, contractPercent, role, token, now);
    if d.Err? {
      return Err(d.reason);
    }
    var id := db.NewId();
    AcceptedInviteKeepsValid(db.users, db.invites, email, contractPercent, role, token, now, id);
    db.invites := db.invites[id := d.body];
    reply := Ok(201, CreatedInvite(id, d.body, InviteUrl(token)));
  }

  // ---------------------------------------------------------------------------
  // getInviteByToken
  // ---------------------------------------------------------------------------

  /** `getInviteByToken`: 400 without a token, 404 for an unknown one, 410 for a used one, else the invite. */
  function InviteLookup(invites: map<Id, Invite>, token: Option<string>): (r: Reply<(Id, Invite)>)
    requires TokensUnique(invites)
    ensures r == Err(MissingFields) <==> !Given(token)
    ensures r == Err(InviteNotFound) <==> Given(token) && forall id :: id in invites ==> invites[id].token != token.value
    ensures r == Err(InviteUsed) <==> Given(token) && exists id :: id in invites && invites[id].token == token.value && invites[id].used
    ensures r.Ok? <==> Given(token) && exists id :: id in invites && invites[id].token == token.value && !invites[id].used
    ensures r.Ok? ==> (r.status == 200 && r.body.0 in invites && r.body.1 == invites[r.body.0]
      && r.body.1.token == token.value && !r.body.1.used)
  {
    if !Given(token) then Err(MissingFields)
    else
      var found := FindInvite(invites, token.value);
      if found.None? then Err(InviteNotFound)
      else if invites[found.value].used then Err(InviteUsed)
      else Ok(200, (found.value, invites[found.value]))
  }

  // ---------------------------------------------------------------------------
  // signupViaInvite
  // ---------------------------------------------------------------------------

  /** All three fields are given and the password has at least 6 characters. */
  predicate SignupFieldsValid(token: Option<string>, name: Option<string>, password: Option<string>)
  {
    Given(token) && Given(name) && Given(password) && |password.value| >= 6
  }

  /**
   * The answer of `signupViaInvite` before its writes: the first failing
   * check, or 201 with the id of the invite to redeem.
   */
  function SignupDecision(users: map<Id, User>, invites: map<Id, Invite>, token: Option<string>, name: Option<string>,
                          password: Option<string>): (r: Reply<Id>)
    requires TokensUnique(invites)
    ensures r == Err(MissingFields) <==> !Given(token) || !Given(name) || !Given(password)
    ensures r == Err(PasswordTooShort) <==> Given(token) && Given(name) && Given(password) && |password.value| < 6
    ensures r == Err(InviteNotFound) <==> (Given(token) && Given(name) && Given(password) && |password.value| >= 6
      && forall id :: id in invites ==> invites[id].token != token.value)
    ensures r == Err(InviteUsed) <==> (SignupFieldsValid(token, name, password)
      && exists id :: id in invites && invites[id].token == token.value && invites[id].used)
    ensures r == Err(EmailTaken) <==> (SignupFieldsValid(token, name, password)
      && exists id :: id in invites && invites[id].token == token.value && !invites[id].used
                   && EmailRegistered(users, invites[id].email))
    ensures r.Ok? <==> (SignupFieldsValid(token, name, password)
      && exists id :: id in invites && invites[id].token == token.value && !invites[id].used
                   && !EmailRegistered(users, invites[id].email))
    ensures r.Ok? ==> (r.status == 201 && r.body in invites && invites[r.body].token == token.value)
    ensures r.Err? ==> r.reason in {MissingFields, PasswordTooShort, InviteNotFound, InviteUsed, EmailTaken}
  {
    if !Given(token) || !Given(name) || !Given(password) then Err(MissingFields)
    else if |password.value| < 6 then Err(PasswordTooShort)
    else
      var found := FindInvite(invites, token.value);
      if found.None? then Err(InviteNotFound)
      else if invites[found.value].used then Err(InviteUsed)
      else if EmailRegistered(users, invites[found.value].email) then Err(EmailTaken)
      else Ok(201, found.value)
  }

  /** The account an invite creates: the invitee's name and the invite's address, percent and role. */
  function InvitedUser(inv: Invite, name: string, passwordHash: string, now: Time): (u: User)
    ensures u.email == inv.email && u.contractPercent == inv.contractPercent && u.role == inv.role
  {
    User(name, inv.email, passwordHash, inv.contractPercent, inv.role, now)
  }

  /** The invite table after redeeming invite `id` at `now`: only that invite changes, from unused to used. */
  function Redeemed(invites: map<Id, Invite>, id: Id, now: Time): (t: map<Id, Invite>)
    requires id in invites
    ensures t.Keys == invites.Keys && t[id].used && t[id].usedAt == Some(now)
    ensures t[id] == invites[id].(used := true, usedAt := Some(now))
    ensures forall k :: k in invites && k != id ==> t[k] == invites[k]
  {
    invites[id := invites[id].(used := true, usedAt := Some(now))]
  }

  /** Redeeming keeps the invite table valid. */
  lemma RedeemKeepsInvitesValid(invites: map<Id, Invite>, id: Id, now: Time)
    requires InvitesValid(invites) && id in invites
    ensures InvitesValid(Redeemed(invites, id, now))
  {
    var t := Redeemed(invites, id, now);
    forall a, b | a in t && b in t && a != b ensures t[a].token != t[b].token
    {
      assert invites[a].token != invites[b].token;
    }
  }

  /** Adding the invited account keeps the user table valid: the address was free and the percent is in range. */
  lemma InvitedUserKeepsUsersValid(users: map<Id, User>, u: User, uid: Id)
    requires UsersValid(users) && uid !in users
    requires !EmailRegistered(users, u.email) && PercentInRange(u.contractPercent)
    ensures UsersValid(users[uid := u])
  {
    var t := users[uid := u];
    forall a, b | a in t && b in t && a != b ensures t[a].email != t[b].email
    {
      if a == uid {
        assert !(b in users && users[b].email == u.email);
      } else if b == uid {
        assert !(a in users && users[a].email == u.email);
      }
    }
  }

  /** The token is single-use: once redeemed, signing up with it again is refused with 410, and so is looking it up. */
  lemma SecondSignupGone(users: map<Id, User>, invites: map<Id, Invite>, token: Option<string>, name: Option<string>,
                         password: Option<string>, now: Time, u: User, uid: Id, name2: Option<string>, password2: Option<string>)
    requires InvitesValid(invites)
    requires SignupDecision(users, invites, token, name, password).Ok?
    requires Given(name2) && Given(password2) && |password2.value| >= 6
    ensures var t := Redeemed(invites, SignupDecision(users, invites, token, name, password).body, now);
      TokensUnique(t)
      && SignupDecision(users[uid := u], t, token, name2, password2) == Err(InviteUsed)
      && InviteLookup(t, token) == Err(InviteUsed)
  {
    var id := SignupDecision(users, invites, token, name, password).body;
    RedeemKeepsInvitesValid(invites, id, now);
    var t := Redeemed(invites, id, now);
    assert id in t && t[id].token == token.value && t[id].used;
  }

  datatype SignedUp = SignedUp(userId: Id, user: User)

  /**
   * `signupViaInvite`: on success, in one step, exactly one user is created
   * from the invite and the invite flips from unused to used; every refusal
   * leaves users and invites as they were. `hash` stands for the password
   * hashing function.
   */
  method SignupViaInvite(db: Db, token: Option<string>, name: Option<string>, password: Option<string>,
                         hash: string -> string, now: Time) returns (reply: Reply<SignedUp>)
    requires db.Valid()
    modifies db`users, db`invites, db`nextId
    ensures db.Valid()
    ensures var d := SignupDecision(old(db.users), old(db.invites), token, name, password);
      && (d.Err? ==> reply == Err(d.reason) && db.users == old(db.users) && db.invites == old(db.invites))
      && (d.Ok? ==> (reply.Ok? && reply.status == 201
            && reply.body.user == InvitedUser(old(db.invites)[d.body], name.value, hash(password.value), now)
            && reply.body.userId !in old(db.users)
            && db.users == old(db.users)[reply.body.userId := reply.body.user]
            && !old(db.invites)[d.body].used
            && db.invites == Redeemed(old(db.invites), d.body, now)))
  {
    var d := SignupDecision(db.users, db.invites, token, name, password);
    if d.Err? {
      return Err(d.reason);
    }
    var inv := db.invites[d.body];
    var user := InvitedUser(inv, name.value, hash(password.value), now);
    var uid := db.NewId();
    InvitedUserKeepsUsersValid(db.users, user, uid);
    RedeemKeepsInvitesValid(db.invites, d.body, now);
    db.users := db.users[uid := user];
    db.invites := Redeemed(db.invites, d.body, now);
    reply := Ok(201, SignedUp(uid, user));
  }
}
