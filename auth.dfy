/** The three function views of users/views/auth_views.py: login, register
    and logout. Token minting and blacklisting are outside the model: a
    successful login or registration is reported with the user data, and the
    blacklist's verdict on a refresh token is a parameter. */
module Auth {
  import opened Wrappers
  import opened Text
  import opened Users
  import opened UserSerializers
  import opened UserStore

  const CredentialsRequired: string := "Email and password are required."
  const InvalidCredentials: string := "Invalid credentials."
  const AccountInactive: string := "User account is inactive."

  /** Python truthiness of an optional string. */
  predicate Truthy(s: Option<string>) {
    s.Some? && s.value != []
  }

  /** `request.data.get('username') or request.data.get('email')`. */
  function LoginEmail(username: Option<string>, email: Option<string>): (r: Option<string>)
    ensures Truthy(username) ==> r == username
    ensures !Truthy(username) ==> r == email
  {
    if Truthy(username) then username else email
  }

  /** What login answers: 200 with the user and the `username` added to the
      user data, or a status with a detail message. */
  datatype LoginResult = LoggedIn(user: User, username: string) | Refused(status: int, detail: string)

  /** `login_view`: both credentials must be present (400); the email is
      looked up as given, and an unknown email and a wrong password get the
      same 401; an inactive account is reported only after the password
      matched; otherwise 200, with `username` equal to the stored email. */
  method Login(db: UserDb, username: Option<string>, email: Option<string>, password: Option<string>)
    returns (r: LoginResult)
    requires db.Valid()
    ensures var e := LoginEmail(username, email);
            !Truthy(e) || !Truthy(password) ==> r == Refused(400, CredentialsRequired)
    ensures var e := LoginEmail(username, email);
            Truthy(e) && Truthy(password) && !EmailInUse(db.users, e.value) ==> r == Refused(401, InvalidCredentials)
    ensures var e := LoginEmail(username, email);
            Truthy(e) && Truthy(password) ==>
              forall id :: id in db.users && db.users[id].email == e.value ==>
                (!CheckPassword(db.users[id], password.value) ==> r == Refused(401, InvalidCredentials))
                && (CheckPassword(db.users[id], password.value) && !db.users[id].isActive ==>
                      r == Refused(401, AccountInactive))
                && (CheckPassword(db.users[id], password.value) && db.users[id].isActive ==>
                      r == LoggedIn(db.users[id], db.users[id].email))
    ensures r.Refused? ==> r.status == 400 || r.status == 401
  {
    var e := LoginEmail(username, email);
    if !Truthy(e) || !Truthy(password) {
      return Refused(400, CredentialsRequired);
    }
    if !EmailInUse(db.users, e.value) {
      return Refused(401, InvalidCredentials);
    }
    var id :| id in db.users && db.users[id].email == e.value;
    var u := db.users[id];
    if !CheckPassword(u, password.value) {
      return Refused(401, InvalidCredentials);
    }
    if !u.isActive {
      return Refused(401, AccountInactive);
    }
    return LoggedIn(u, u.email);
  }

  /** The body `register_view` hands to the serializer: `username` is copied
      into `email` only when no `email` was sent at all. */
  function RegisterData(username: Option<string>, req: UserCreateRequest): (r: UserCreateRequest)
    ensures req.email.Some? ==> r == req
    ensures req.email.None? ==> r.email == username && r.(email := None) == req
  {
    if req.email.None? && username.Some? then req.(email := username) else req
  }

  /** `register_view`: the serializer refuses (400, nothing created); or the
      insert collides on the normalised email, an integrity error the API
      reports as 500; or the user is created (201) and reported with
      `username` equal to its stored email. */
  method Register(db: UserDb, username: Option<string>, req: UserCreateRequest,
                  validEmail: string -> bool, passwordOk: string -> bool)
    returns (status: int, created: Option<User>)
    requires db.Valid()
    modifies db
    ensures db.Valid()
    ensures status != 201 ==> db.users == old(db.users) && db.nextId == old(db.nextId) && created.None?
    ensures var check := CheckCreate(old(db.users), RegisterData(username, req), validEmail, passwordOk);
            (check.Failure? ==> status == 400)
            && (check.Success? && EmailInUse(old(db.users), NormalizeEmail(Some(check.value.email))) ==> status == 500)
            && (check.Success? && !EmailInUse(old(db.users), NormalizeEmail(Some(check.value.email))) ==>
                  status == 201 && created.Some?
                  && created.value == User(old(db.nextId), NormalizeEmail(Some(check.value.email)),
                                           check.value.firstName, check.value.lastName, check.value.phoneNumber,
                                           check.value.role.GetOr(RegularUser), check.value.status.GetOr(Active),
                                           false, false, true, Some(check.value.password))
                  && CheckPassword(created.value, check.value.password)
                  && db.users == old(db.users)[old(db.nextId) := created.value]
                  && db.nextId == old(db.nextId) + 1)
  {
    var data := RegisterData(username, req);
    var check := CheckCreate(db.users, data, validEmail, passwordOk);
    if check.Failure? {
      return 400, None;
    }
    StripEmptyIffAllSpace(data.email.value);
    var r := db.CreateFromData(check.value);
    if r.Failure? {
      return 500, None;
    }
    return 201, Some(r.value);
  }

  /** The registration body may carry `role` and `status`: the serializer
      never refuses a body for its role, and an accepted body keeps the role
      and status as sent, so an anonymous registrant can choose ADMIN. */
  lemma RegistrantChoosesRole(users: map<nat, User>, username: Option<string>, req: UserCreateRequest,
                              role: Role, validEmail: string -> bool, passwordOk: string -> bool)
    ensures CheckCreate(users, RegisterData(username, req.(role := Some(role))), validEmail, passwordOk).Success?
            <==> CheckCreate(users, RegisterData(username, req), validEmail, passwordOk).Success?
    ensures var check := CheckCreate(users, RegisterData(username, req.(role := Some(role))), validEmail, passwordOk);
            check.Success? ==> check.value.role.GetOr(RegularUser) == role
  {
  }

  /** What the token blacklist makes of a refresh token. */
  datatype TokenOutcome = Blacklisted | TokenRejected | OtherFailure

  datatype Reply = Reply(status: int, detail: string)

  /** `logout_view`: a missing or empty refresh token, a token the blacklist
      rejects, and any other failure all give 400, each with its own message;
      only a blacklisted token gives 200. */
  function Logout(refresh: Option<string>, blacklist: string -> TokenOutcome): (r: Reply)
    ensures r.status == 200 <==> Truthy(refresh) && blacklist(refresh.value) == Blacklisted
    ensures r.status != 200 ==> r.status == 400
    ensures !Truthy(refresh) ==> r.detail == "Refresh token is required."
    ensures Truthy(refresh) && blacklist(refresh.value) == TokenRejected ==> r.detail == "Invalid or expired token."
  {
    if !Truthy(refresh) then Reply(400, "Refresh token is required.")
    else match blacklist(refresh.value)
         case Blacklisted => Reply(200, "Successfully logged out.")
         case TokenRejected => Reply(400, "Invalid or expired token.")
         case OtherFailure => Reply(400, "Logout failed.")
  }
}
