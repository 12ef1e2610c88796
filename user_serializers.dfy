/** The user serializers of users/serializers: registration with password
    confirmation (`UserCreateSerializer`), the password change
    (`PasswordChangeSerializer`), the email check on update (`UserSerializer`),
    the update of the three profile fields (`UserUpdateSerializer`) and the
    field lists that decide what is read-only and what is never shown.
    Django's `EmailValidator` and `validate_password` are parameters. */
module UserSerializers {
  import opened Wrappers
  import opened Text
  import opened Forms
  import opened Users

  const PasswordsDiffer: string := "Password fields didn't match."
  /** The message of `UserSerializer.validate_email`. The email column is
      unique, so the serializer's email field also carries a unique
      validator, which excludes the instance and runs first: a taken email
      is refused with that validator's own message, and this one is never
      reached. */
  const EmailTaken: string := "A user with this email already exists."
  const OldPasswordWrong: string := "Old password is incorrect."

  /** Some stored user has exactly this email. */
  predicate EmailInUse(users: map<nat, User>, email: string) {
    exists id :: id in users && users[id].email == email
  }

  /** A registration body as sent; `None` is an absent field. */
  datatype UserCreateRequest = UserCreateRequest(
    email: Option<string>,
    password: Option<string>,
    passwordConfirm: Option<string>,
    firstName: Option<string>,
    lastName: Option<string>,
    phoneNumber: Option<string>,
    role: Option<Role>,
    status: Option<UserStatus>)

  /** The validated data handed to `create`: `password_confirm` is gone. */
  datatype NewUserData = NewUserData(
    email: string,
    password: string,
    firstName: string,
    lastName: string,
    phoneNumber: Option<string>,
    role: Option<Role>,
    status: Option<UserStatus>)

  /** A required, non-blank text field that must also satisfy `ok`; a value
      `ok` refuses is reported as `problem`. */
  function CheckedText(raw: Option<string>, ok: string -> bool, problem: Problem): (r: Result<string, Problem>)
    ensures r.Success? <==> raw.Some? && !AllSpace(raw.value) && ok(Strip(raw.value))
    ensures r.Success? ==> r.value == Strip(raw.value)
    ensures raw.Some? && !AllSpace(raw.value) && !ok(Strip(raw.value)) ==> r == Failure(problem)
  {
    match RequiredText(raw)
    case Failure(p) => Failure(p)
    case Success(t) => if ok(t) then Success(t) else Failure(problem)
  }

  /** The field stage of registration: email, first and last name required and
      non-blank, the email well formed and not yet used, both passwords
      required and non-blank, the password accepted by the password
      validators. */
  function CreateFieldErrors(users: map<nat, User>, req: UserCreateRequest,
                             validEmail: string -> bool, passwordOk: string -> bool): (e: seq<FieldError>)
    ensures e == [] <==>
              req.email.Some? && !AllSpace(req.email.value)
              && validEmail(Strip(req.email.value)) && !EmailInUse(users, Strip(req.email.value))
              && req.password.Some? && !AllSpace(req.password.value) && passwordOk(Strip(req.password.value))
              && req.passwordConfirm.Some? && !AllSpace(req.passwordConfirm.value)
              && req.firstName.Some? && !AllSpace(req.firstName.value)
              && req.lastName.Some? && !AllSpace(req.lastName.value)
  {
    var email := match RequiredText(req.email)
                 case Failure(p) => Failure(p)
                 case Success(t) =>
                   if !validEmail(t) then Failure(Rejected("Enter a valid email address."))
                   else if EmailInUse(users, t) then Failure(NotUnique)
                   else Success(t);
    ErrorsOf("email", email)
    + ErrorsOf("password", CheckedText(req.password, passwordOk, InvalidPassword))
    + ErrorsOf("password_confirm", RequiredText(req.passwordConfirm))
    + ErrorsOf("first_name", RequiredText(req.firstName))
    + ErrorsOf("last_name", RequiredText(req.lastName))
  }

  /** `UserCreateSerializer.is_valid`: the field stage, then `validate`, which
      refuses differing passwords on `password_confirm` and otherwise drops
      the confirmation and keeps the password. */
  function CheckCreate(users: map<nat, User>, req: UserCreateRequest,
                       validEmail: string -> bool, passwordOk: string -> bool)
    : (r: Result<NewUserData, seq<FieldError>>)
    ensures r.Failure? ==> r.error != []
    ensures CreateFieldErrors(users, req, validEmail, passwordOk) != [] ==>
              r == Failure(CreateFieldErrors(users, req, validEmail, passwordOk))
    ensures CreateFieldErrors(users, req, validEmail, passwordOk) == [] ==>
              (r.Success? <==> Strip(req.password.value) == Strip(req.passwordConfirm.value))
    ensures CreateFieldErrors(users, req, validEmail, passwordOk) == [] && r.Failure? ==>
              r.error == [FieldError("password_confirm", Rejected(PasswordsDiffer))]
    ensures r.Success? ==>
              r.value == NewUserData(Strip(req.email.value), Strip(req.password.value),
                                     Strip(req.firstName.value), Strip(req.lastName.value),
                                     req.phoneNumber, req.role, req.status)
  {
    var errors := CreateFieldErrors(users, req, validEmail, passwordOk);
    if errors != [] then Failure(errors)
    else if Strip(req.password.value) != Strip(req.passwordConfirm.value) then
      Failure([FieldError("password_confirm", Rejected(PasswordsDiffer))])
    else
      Success(NewUserData(Strip(req.email.value), Strip(req.password.value),
                          Strip(req.firstName.value), Strip(req.lastName.value),
                          req.phoneNumber, req.role, req.status))
  }

  /** A registration is refused whenever email, first name or last name is
      missing, and whenever the two passwords differ. */
  lemma CreateRequiresNamesAndMatchingPasswords(users: map<nat, User>, req: UserCreateRequest,
                                                validEmail: string -> bool, passwordOk: string -> bool)
    ensures req.email.None? || req.firstName.None? || req.lastName.None? ==>
              CheckCreate(users, req, validEmail, passwordOk).Failure?
    ensures req.password.Some? && req.passwordConfirm.Some?
            && Strip(req.password.value) != Strip(req.passwordConfirm.value) ==>
              CheckCreate(users, req, validEmail, passwordOk).Failure?
    ensures CheckCreate(users, req, validEmail, passwordOk).Success? ==>
              !EmailInUse(users, CheckCreate(users, req, validEmail, passwordOk).value.email)
  {
  }

  /** The fields of `UserCreateSerializer`, and those that are write-only. */
  const UserCreateFields: seq<string> :=
    ["id", "email", "password", "password_confirm", "first_name", "last_name", "phone_number", "role", "status"]
  const UserCreateWriteOnly: set<string> := {"password", "password_confirm"}

  /** The listed fields minus an excluded set: a serializer shows its fields
      minus the write-only ones and accepts its fields minus the read-only
      ones. */
  function FieldsExcept(fields: seq<string>, excluded: set<string>): (r: set<string>)
    ensures forall f :: f in r <==> f in fields && f !in excluded
  {
    set f | f in fields && f !in excluded
  }

  /** Neither password ever appears in the output of a registration, while
      the email does. */
  lemma PasswordsNeverShown()
    ensures "password" !in FieldsExcept(UserCreateFields, UserCreateWriteOnly)
    ensures "password_confirm" !in FieldsExcept(UserCreateFields, UserCreateWriteOnly)
    ensures "email" in FieldsExcept(UserCreateFields, UserCreateWriteOnly)
  {
    assert UserCreateFields[1] == "email";
  }

  /** A password change body as sent. */
  datatype PasswordChangeRequest = PasswordChangeRequest(
    oldPassword: Option<string>,
    newPassword: Option<string>,
    newPasswordConfirm: Option<string>)

  /** `validate_old_password`: the value must be the requester's password. */
  function ValidateOldPassword(requester: User, value: string): (r: Result<string, string>)
    ensures r.Success? <==> CheckPassword(requester, value)
    ensures r.Success? ==> r.value == value
    ensures r.Failure? ==> r.error == OldPasswordWrong
  {
    if CheckPassword(requester, value) then Success(value) else Failure(OldPasswordWrong)
  }

  /** The field stage of the password change: all three fields required and
      non-blank, the old one the requester's, the new one accepted by the
      password validators. */
  function PasswordFieldErrors(requester: User, req: PasswordChangeRequest, passwordOk: string -> bool)
    : (e: seq<FieldError>)
    ensures e == [] <==>
              req.oldPassword.Some? && !AllSpace(req.oldPassword.value)
              && CheckPassword(requester, Strip(req.oldPassword.value))
              && req.newPassword.Some? && !AllSpace(req.newPassword.value) && passwordOk(Strip(req.newPassword.value))
              && req.newPasswordConfirm.Some? && !AllSpace(req.newPasswordConfirm.value)
  {
    var oldField := match RequiredText(req.oldPassword)
               case Failure(p) => Failure(p)
               case Success(t) =>
                 match ValidateOldPassword(requester, t)
                 case Failure(m) => Failure(Rejected(m))
                 case Success(v) => Success(v);
    ErrorsOf("old_password", oldField)
    + ErrorsOf("new_password", CheckedText(req.newPassword, passwordOk, InvalidPassword))
    + ErrorsOf("new_password_confirm", RequiredText(req.newPasswordConfirm))
  }

  /** `PasswordChangeSerializer.is_valid`: the field stage, then `validate`,
      which refuses a confirmation that differs on `new_password_confirm`. The
      result is the new password. */
  function CheckPasswordChange(requester: User, req: PasswordChangeRequest, passwordOk: string -> bool)
    : (r: Result<string, seq<FieldError>>)
    ensures r.Failure? ==> r.error != []
    ensures r.Success? <==>
              PasswordFieldErrors(requester, req, passwordOk) == []
              && Strip(req.newPassword.value) == Strip(req.newPasswordConfirm.value)
    ensures r.Success? ==> r.value == Strip(req.newPassword.value)
    ensures PasswordFieldErrors(requester, req, passwordOk) == [] && r.Failure? ==>
              r.error == [FieldError("new_password_confirm", Rejected(PasswordsDiffer))]
  {
    var errors := PasswordFieldErrors(requester, req, passwordOk);
    if errors != [] then Failure(errors)
    else if Strip(req.newPassword.value) != Strip(req.newPasswordConfirm.value) then
      Failure([FieldError("new_password_confirm", Rejected(PasswordsDiffer))])
    else Success(Strip(req.newPassword.value))
  }

  /** Nothing forbids choosing the current password as the new one, and a
      wrong old password is always refused on `old_password`. */
  lemma PasswordChangeAllowsSamePassword(requester: User, p: string, passwordOk: string -> bool)
    requires requester.password == Some(p) && !AllSpace(p) && Strip(p) == p && passwordOk(p)
    ensures CheckPasswordChange(requester, PasswordChangeRequest(Some(p), Some(p), Some(p)), passwordOk) == Success(p)
  {
  }

  lemma WrongOldPasswordRefused(requester: User, req: PasswordChangeRequest, passwordOk: string -> bool)
    requires req.oldPassword.Some? && !AllSpace(req.oldPassword.value)
    requires !CheckPassword(requester, Strip(req.oldPassword.value))
    ensures CheckPasswordChange(requester, req, passwordOk).Failure?
    ensures FieldError("old_password", Rejected(OldPasswordWrong))
            in CheckPasswordChange(requester, req, passwordOk).error
  {
    StripEmptyIffAllSpace(req.oldPassword.value);
  }

  /** `UserSerializer.validate_email`: on update, a changed email is refused
      when another user already has it; without an instance nothing is
      checked. The field's unique validator runs before it and refuses the
      same emails first, with its own message (see `EmailTaken`). */
  function ValidateEmail(users: map<nat, User>, value: string, instance: Option<User>): (r: Result<string, string>)
    ensures r.Success? ==> r.value == value
    ensures instance.None? ==> r.Success?
    ensures instance.Some? ==>
              (r.Success? <==> value == instance.value.email || !EmailInUse(users, value))
    ensures r.Failure? ==> r.error == EmailTaken
  {
    if instance.Some? && value != instance.value.email && EmailInUse(users, value) then Failure(EmailTaken)
    else Success(value)
  }

  /** An unchanged email is always accepted, and an email held by a different
      user is refused. */
  lemma ValidateEmailOnUpdate(users: map<nat, User>, value: string, instance: User, other: nat)
    ensures ValidateEmail(users, instance.email, Some(instance)).Success?
    ensures other in users && users[other].email == value && value != instance.email ==>
              ValidateEmail(users, value, Some(instance)).Failure?
  {
  }

  /** The fields of `UserSerializer` and `UserListSerializer` and their
      read-only parts (`full_name` is read-only in both). */
  const UserFields: seq<string> :=
    ["id", "email", "first_name", "last_name", "full_name", "phone_number", "role", "status",
     "is_active", "date_joined", "created_at", "updated_at"]
  const UserReadOnly: set<string> := {"id", "date_joined", "created_at", "updated_at", "full_name"}
  const UserListFields: seq<string> := ["id", "email", "full_name", "role", "status", "date_joined"]
  const UpdateFields: seq<string> := ["first_name", "last_name", "phone_number"]

  /** The id and the timestamps can never be written through `UserSerializer`;
      nothing can be written through `UserListSerializer`, whose fields are all
      read-only; the update serializer writes exactly its three fields. */
  lemma ReadOnlyUserFields()
    ensures forall f :: f in {"id", "date_joined", "created_at", "updated_at"} ==> f !in FieldsExcept(UserFields, UserReadOnly)
    ensures "email" in FieldsExcept(UserFields, UserReadOnly)
    ensures FieldsExcept(UserListFields, set f | f in UserListFields) == {}
    ensures FieldsExcept(UpdateFields, {}) == {"first_name", "last_name", "phone_number"}
  {
    assert UserFields[1] == "email";
    assert forall f :: f in FieldsExcept(UpdateFields, {}) ==> f in {"first_name", "last_name", "phone_number"};
    assert UpdateFields[0] == "first_name" && UpdateFields[1] == "last_name" && UpdateFields[2] == "phone_number";
  }

  /** An update body for `UserUpdateSerializer`: `phoneNumber` is
      `Some(None)` for an explicit null. */
  datatype UserUpdateRequest = UserUpdateRequest(
    firstName: Option<string>,
    lastName: Option<string>,
    phoneNumber: Option<Option<string>>)

  /** The names may not be blank; on a full update they are also required. */
  function NameField(raw: Option<string>, partial: bool): (r: Result<Option<string>, Problem>)
    ensures r.Success? <==> (raw.None? && partial) || (raw.Some? && !AllSpace(raw.value))
    ensures r.Success? && raw.Some? ==> r.value == Some(Strip(raw.value))
    ensures r.Success? && raw.None? ==> r.value == None
  {
    if raw.None? then (if partial then Success(None) else Failure(Required))
    else match RequiredText(raw)
         case Failure(p) => Failure(p)
         case Success(t) => Success(Some(t))
  }

  /** `UserUpdateSerializer` applied to `u`: only first name, last name and
      phone number can change; everything else is kept. */
  function CheckUpdate(u: User, req: UserUpdateRequest, partial: bool): (r: Result<User, seq<FieldError>>)
    ensures r.Failure? ==> r.error != []
    ensures r.Success? <==> NameField(req.firstName, partial).Success? && NameField(req.lastName, partial).Success?
    ensures r.Success? ==>
              r.value.(firstName := u.firstName, lastName := u.lastName, phoneNumber := u.phoneNumber) == u
    ensures r.Success? ==>
              r.value.firstName == (if req.firstName.Some? then Strip(req.firstName.value) else u.firstName)
              && r.value.lastName == (if req.lastName.Some? then Strip(req.lastName.value) else u.lastName)
              && r.value.phoneNumber == req.phoneNumber.GetOr(u.phoneNumber)
  {
    var f := NameField(req.firstName, partial);
    var l := NameField(req.lastName, partial);
    var errors := ErrorsOf("first_name", f) + ErrorsOf("last_name", l);
    if errors != [] then Failure(errors)
    else Success(u.(firstName := f.value.GetOr(u.firstName),
                    lastName := l.value.GetOr(u.lastName),
                    phoneNumber := req.phoneNumber.GetOr(u.phoneNumber)))
  }

  /** An update never touches the role, the status, the activity or staff
      flags, the email or the password, so it cannot raise privileges. */
  lemma UpdateCannotRaisePrivileges(u: User, req: UserUpdateRequest, partial: bool)
    requires CheckUpdate(u, req, partial).Success?
    ensures var w := CheckUpdate(u, req, partial).value;
            w.id == u.id && w.role == u.role && w.status == u.status && w.isStaff == u.isStaff
            && w.isSuperuser == u.isSuperuser && w.isActive == u.isActive
            && w.email == u.email && w.password == u.password
            && (IsAdmin(w) <==> IsAdmin(u))
  {
  }
}
