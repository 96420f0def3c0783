/**
 * Users: self-registration with its defaults (a missing or zero contract
 * percent becomes 100, a missing role becomes USER) and the administrator's
 * partial update of contract percent and role.
 */
module UserController {
  import opened Common
  import opened Store
  import opened Email

  // ---------------------------------------------------------------------------
  // registerUser
  // ---------------------------------------------------------------------------

  /** `role || 'USER'`, for a role that passed the enum check. */
  function RoleOrDefault(role: Option<string>): (r: Role)
    requires !Given(role) || ParseRole(role.value).Some?
    ensures !Given(role) ==> r == USER
    ensures Given(role) ==> RoleName(r) == role.value
  {
    if !Given(role) then USER else ParseRole(role.value).value
  }

  /** Name, e-mail and password are given, the address is well formed and the password long enough. */
  predicate CredentialsValid(name: Option<string>, email: Option<string>, password: Option<string>)
  {
    Given(name) && Given(email) && Given(password) && ValidEmail(email.value) && |password.value| >= 6
  }

  /** The optional percent, if present, lies in [0, 100], and the optional role, if given, is known. */
  predicate OptionalFieldsValid(contractPercent: Option<int>, role: Option<string>)
  {
    (contractPercent.None? || PercentInRange(contractPercent.value)) && (!Given(role) || ParseRole(role.value).Some?)
  }

  /**
   * The answer of `registerUser`: the first failing check, or 201 with the
   * user row to insert. `hash` stands for the password hashing function.
   */
  function RegisterDecision(users: map<Id, User>, name: Option<string>, email: Option<string>, password: Option<string>,
                            contractPercent: Option<int>, role: Option<string>, hash: string -> string, now: Time): (r: Reply<User>)
    ensures r == Err(MissingFields) <==> !Given(name) || !Given(email) || !Given(password)
    ensures r == Err(InvalidEmail) <==> Given(name) && Given(email) && Given(password) && !ValidEmail(email.value)
    ensures r == Err(PasswordTooShort) <==> (Given(name) && Given(email) && Given(password) && ValidEmail(email.value)
      && |password.value| < 6)
    ensures r == Err(PercentOutOfRange) <==> (CredentialsValid(name, email, password)
      && contractPercent.Some? && !PercentInRange(contractPercent.value))
    ensures r == Err(InvalidRole) <==> (CredentialsValid(name, email, password)
      && (contractPercent.None? || PercentInRange(contractPercent.value))
      && Given(role) && ParseRole(role.value).None?)
    ensures r == Err(EmailTaken) <==> (CredentialsValid(name, email, password)
      && OptionalFieldsValid(contractPercent, role) && EmailRegistered(users, email.value))
    ensures r.Ok? <==> (CredentialsValid(name, email, password)
      && OptionalFieldsValid(contractPercent, role) && !EmailRegistered(users, email.value))
    ensures r.Ok? ==> (r.status == 201 && Given(name) && Given(email) && Given(password)
      && ValidEmail(email.value) && |password.value| >= 6 && !EmailRegistered(users, email.value)
      && r.body.name == name.value && r.body.email == email.value && r.body.passwordHash == hash(password.value)
      && PercentInRange(r.body.contractPercent) && r.body.createdAt == now)
    ensures r.Err? ==> r.reason in {MissingFields, InvalidEmail, PasswordTooShort, PercentOutOfRange, InvalidRole, EmailTaken}
  {
    if !Given(name) || !Given(email) || !Given(password) then Err(MissingFields)
    else if !ValidEmail(email.value) then Err(InvalidEmail)
    else if |password.value| < 6 then Err(PasswordTooShort)
    else if contractPercent.Some? && !PercentInRange(contractPercent.value) then Err(PercentOutOfRange)
    else if Given(role) && ParseRole(role.value).None? then Err(InvalidRole)
    else if EmailRegistered(users, email.value) then Err(EmailTaken)
    else Ok(201, User(name.value, email.value, hash(password.value), PercentOrFull(contractPercent), RoleOrDefault(role), now))
  }

  /**
   * The defaults: with no percent, or a percent of 0, the user is stored at
   * 100, and any other percent as given; with no role, as USER.
   */
  lemma RegistrationDefaults(users: map<Id, User>, name: Option<string>, email: Option<string>, password: Option<string>,
                             contractPercent: Option<int>, role: Option<string>, hash: string -> string, now: Time)
    requires RegisterDecision(users, name, email, password, contractPercent, role, hash, now).Ok?
    ensures var u := RegisterDecision(users, name, email, password, contractPercent, role, hash, now).body;
      && (contractPercent.None? || contractPercent == Some(0) ==> u.contractPercent == 100)
      && (contractPercent.Some? && contractPercent.value != 0 ==> u.contractPercent == contractPercent.value)
      && (!Given(role) ==> u.role == USER)
      && (Given(role) ==> RoleName(u.role) == role.value)
  {
  }

  /** Inserting a registered user keeps the user table valid. */
  lemma RegisteredUserKeepsValid(users: map<Id, User>, u: User, id: Id)
    requires UsersValid(users) && id !in users
    requires !EmailRegistered(users, u.email) && PercentInRange(u.contractPercent)
    ensures UsersValid(users[id := u])
  {
    var t := users[id := u];
    forall a, b | a in t && b in t && a != b ensures t[a].email != t[b].email
    {
      if a == id {
        assert t[b] == users[b];
      } else if b == id {
        assert t[a] == users[a];
      }
    }
  }

  /** Registering the same address again is refused with 409. */
  lemma SecondRegistrationRefused(users: map<Id, User>, name: Option<string>, email: Option<string>, password: Option<string>,
                                  contractPercent: Option<int>, role: Option<string>, hash: string -> string, now: Time, id: Id,
                                  name2: Option<string>, password2: Option<string>, contractPercent2: Option<int>, role2: Option<string>)
    requires RegisterDecision(users, name, email, password, contractPercent, role, hash, now).Ok?
    requires Given(name2) && Given(password2) && |password2.value| >= 6
    requires contractPercent2.None? || PercentInRange(contractPercent2.value)
    requires !Given(role2) || ParseRole(role2.value).Some?
    ensures var t := users[id := RegisterDecision(users, name, email, password, contractPercent, role, hash, now).body];
      RegisterDecision(t, name2, email, password2, contractPercent2, role2, hash, now) == Err(EmailTaken)
  {
    var t := users[id := RegisterDecision(users, name, email, password, contractPercent, role, hash, now).body];
    assert id in t && t[id].email == email.value;
  }

  /**
   * `registerUser`: on success exactly one user is inserted (201); on any
   * refusal the user table is unchanged.
   */
  method RegisterUser(db: Db, name: Option<string>, email: Option<string>, password: Option<string>,
                      contractPercent: Option<int>, role: Option<string>, hash: string -> string, now: Time)
    returns (reply: Reply<(Id, User)>)
    requires db.Valid()
    modifies db`users, db`nextId
    ensures db.Valid()
    ensures var d := RegisterDecision(old(db.users), name, email, password, contractPercent, role, hash, now);
      && (d.Err? ==> reply == Err(d.reason) && db.users == old(db.users))
      && (d.Ok? ==> (reply.Ok? && reply.status == 201 && reply.body.1 == d.body && reply.body.0 !in old(db.users)
                     && db.users == old(db.users)[reply.body.0 := d.body]))
  {
    var d := RegisterDecision(db.users, name, email, password, contractPercent, role, hash, now);
    if d.Err? {
      return Err(d.reason);
    }
    var id := db.NewId();
    RegisteredUserKeepsValid(db.users, d.body, id);
    db.users := db.users[id := d.body];
    reply := Ok(201, (id, d.body));
  }

  // ---------------------------------------------------------------------------
  // updateUser
  // ---------------------------------------------------------------------------

  /** Something is supplied, a supplied percent lies in [0, 100], and a non-empty role is known. */
  predicate UpdateFieldsValid(contractPercent: Option<int>, role: Option<string>)
  {
    && !(contractPercent.None? && role.None?)
    && (contractPercent.None? || PercentInRange(contractPercent.value))
    && !(Given(role) && ParseRole(role.value).None?)
  }

  /**
   * The answer of `updateUser` for user `id`: the first failing check, or 200
   * with the updated row. An empty role passes the enum check (it is falsy)
   * but is not a role, so the store rejects the write (500).
   */
  function UpdateDecision(users: map<Id, User>, id: Id, contractPercent: Option<int>, role: Option<string>): (r: Reply<User>)
    ensures r == Err(NothingToUpdate) <==> contractPercent.None? && role.None?
    ensures r == Err(PercentOutOfRange) <==> (!(contractPercent.None? && role.None?)
      && contractPercent.Some? && !PercentInRange(contractPercent.value))
    ensures r == Err(InvalidRole) <==> (!(contractPercent.None? && role.None?)
      && (contractPercent.None? || PercentInRange(contractPercent.value))
      && Given(role) && ParseRole(role.value).None?)
    ensures r == Err(UserNotFound) <==> UpdateFieldsValid(contractPercent, role) && id !in users
    ensures r == Err(InternalError) <==> UpdateFieldsValid(contractPercent, role) && id in users && role == Some("")
    ensures r.Ok? <==> UpdateFieldsValid(contractPercent, role) && id in users && role != Some("")
    ensures r.Ok? ==> (r.status == 200 && id in users
      && r.body.name == users[id].name && r.body.email == users[id].email
      && r.body.passwordHash == users[id].passwordHash && r.body.createdAt == users[id].createdAt
      && r.body.contractPercent == (if contractPercent.Some? then contractPercent.value else users[id].contractPercent)
      && (role.None? ==> r.body.role == users[id].role)
      && (role.Some? ==> RoleName(r.body.role) == role.value))
    ensures r.Err? ==> r.reason in {NothingToUpdate, PercentOutOfRange, InvalidRole, UserNotFound, InternalError}
  {
    if contractPercent.None? && role.None? then Err(NothingToUpdate)
    else if contractPercent.Some? && !PercentInRange(contractPercent.value) then Err(PercentOutOfRange)
    else if Given(role) && ParseRole(role.value).None? then Err(InvalidRole)
    else if id !in users then Err(UserNotFound)
    else if role == Some("") then Err(InternalError)
    else
      var old_ := users[id];
      var withPercent := if contractPercent.Some? then old_.(contractPercent := contractPercent.value) else old_;
      Ok(200, if role.Some? then withPercent.(role := ParseRole(role.value).value) else withPercent)
  }

  /** Once the checks pass, an unknown id is reported as 404. */
  lemma UnknownUserNotFound(users: map<Id, User>, id: Id, contractPercent: Option<int>, role: Option<string>)
    requires !(contractPercent.None? && role.None?)
    requires contractPercent.None? || PercentInRange(contractPercent.value)
    requires !(Given(role) && ParseRole(role.value).None?)
    requires id !in users
    ensures UpdateDecision(users, id, contractPercent, role) == Err(UserNotFound)
  {
  }

  /** Repeating an accepted update changes nothing further. */
  lemma UpdateIdempotent(users: map<Id, User>, id: Id, contractPercent: Option<int>, role: Option<string>)
    requires UpdateDecision(users, id, contractPercent, role).Ok?
    ensures var t := users[id := UpdateDecision(users, id, contractPercent, role).body];
      UpdateDecision(t, id, contractPercent, role) == UpdateDecision(users, id, contractPercent, role)
  {
    var u := UpdateDecision(users, id, contractPercent, role).body;
    if role.Some? {
      RoleRoundTrip(u.role);
    }
  }

  /** An accepted update keeps the user table valid: addresses are untouched and the percent stays in range. */
  lemma UpdateKeepsUsersValid(users: map<Id, User>, id: Id, contractPercent: Option<int>, role: Option<string>)
    requires UsersValid(users)
    requires UpdateDecision(users, id, contractPercent, role).Ok?
    ensures UsersValid(users[id := UpdateDecision(users, id, contractPercent, role).body])
  {
    var t := users[id := UpdateDecision(users, id, contractPercent, role).body];
    forall a, b | a in t && b in t && a != b ensures t[a].email != t[b].email
    {
      assert t[a].email == users[a].email && t[b].email == users[b].email;
    }
  }

  /** `updateUser`: only the supplied fields of one row change; any refusal leaves the table as it was. */
  method UpdateUser(db: Db, id: Id, contractPercent: Option<int>, role: Option<string>) returns (reply: Reply<User>)
    requires db.Valid()
    modifies db`users
    ensures db.Valid()
    ensures reply == UpdateDecision(old(db.users), id, contractPercent, role)
    ensures reply.Err? ==> db.users == old(db.users)
    ensures reply.Ok? ==> db.users == old(db.users)[id := reply.body]
  {
    reply := UpdateDecision(db.users, id, contractPercent, role);
    if reply.Ok? {
      UpdateKeepsUsersValid(db.users, id, contractPercent, role);
      db.users := db.users[id := reply.body];
    }
  }
}
