/** The users table as one object: `UserManager.create_user` and
    `create_superuser` (users/models/managers.py), the insert behind
    `UserCreateSerializer.create`, and the field updates the user endpoints
    save. Rows are keyed by id; the email column is unique. */
module UserStore {
  import opened Wrappers
  import opened Users
  import opened UserSerializers

  /** The keyword arguments passed besides email and password; `None` is an
      argument not passed, which leaves the model field's default. */
  datatype ExtraFields = ExtraFields(
    firstName: Option<string>,
    lastName: Option<string>,
    phoneNumber: Option<string>,
    role: Option<Role>,
    status: Option<UserStatus>,
    isStaff: Option<bool>,
    isSuperuser: Option<bool>,
    isActive: Option<bool>)

  /** The `ValueError`s of the manager, and the unique constraint on email. */
  datatype CreateUserError = MissingEmail | NotStaff | NotSuperuser | DuplicateEmail

  class UserDb {
    var users: map<nat, User>
    var nextId: nat

    /** Each row sits under its own id, below `nextId`; no two rows share an
        email. */
    ghost predicate Valid()
      reads this
    {
      (forall id :: id in users ==> users[id].id == id && id < nextId)
      && (forall a, b :: a in users && b in users && a != b ==> users[a].email != users[b].email)
    }

    constructor ()
      ensures users == map[] && nextId == 0
      ensures Valid()
    {
      users := map[];
      nextId := 0;
    }

    /** `create_user`: an absent or empty email is refused; the email is
        normalised; role and status default to USER and ACTIVE unless given;
        the password becomes the one `check_password` accepts (`None`, an
        unusable one, when none is given); the insert fails when the
        normalised email is already stored. */
    method CreateUser(email: Option<string>, password: Option<string>, extra: ExtraFields)
      returns (r: Result<User, CreateUserError>)
      requires Valid()
      modifies this
      ensures Valid()
      ensures email.None? || email.value == [] ==> r == Failure(MissingEmail)
      ensures email.Some? && email.value != [] && EmailInUse(old(users), NormalizeEmail(email)) ==>
                r == Failure(DuplicateEmail)
      ensures r.Failure? <==> email.None? || email.value == [] || EmailInUse(old(users), NormalizeEmail(email))
      ensures r.Failure? ==> users == old(users) && nextId == old(nextId)
      ensures r.Failure? ==> r.error == MissingEmail || r.error == DuplicateEmail
      ensures r.Success? ==>
                email.Some? && email.value != [] && !EmailInUse(old(users), NormalizeEmail(email))
                && r.value == User(old(nextId), NormalizeEmail(email), extra.firstName.GetOr(""),
                                   extra.lastName.GetOr(""), extra.phoneNumber,
                                   extra.role.GetOr(RegularUser), extra.status.GetOr(Active),
                                   extra.isStaff.GetOr(false), extra.isSuperuser.GetOr(false),
                                   extra.isActive.GetOr(true), password)
                && users == old(users)[old(nextId) := r.value]
                && nextId == old(nextId) + 1
    {
      if email.None? || email.value == [] {
        return Failure(MissingEmail);
      }
      var normalized := NormalizeEmail(email);
      var fields := extra;
      if fields.role.None? {
        fields := fields.(role := Some(RegularUser));
      }
      if fields.status.None? {
        fields := fields.(status := Some(Active));
      }
      var u := User(nextId, normalized, fields.firstName.GetOr(""), fields.lastName.GetOr(""),
                    fields.phoneNumber, fields.role.value, fields.status.value,
                    fields.isStaff.GetOr(false), fields.isSuperuser.GetOr(false),
                    fields.isActive.GetOr(true), password);
      if EmailInUse(users, normalized) {
        return Failure(DuplicateEmail);
      }
      users := users[nextId := u];
      nextId := nextId + 1;
      return Success(u);
    }

    /** `create_superuser`: `is_staff` and `is_superuser` default to true, role
        to ADMIN and status to ACTIVE; an explicit false flag is refused
        before anything else; then `create_user` with those fields. */
    method CreateSuperuser(email: Option<string>, password: Option<string>, extra: ExtraFields)
      returns (r: Result<User, CreateUserError>)
      requires Valid()
      modifies this
      ensures Valid()
      ensures !extra.isStaff.GetOr(true) ==> r == Failure(NotStaff)
      ensures extra.isStaff.GetOr(true) && !extra.isSuperuser.GetOr(true) ==> r == Failure(NotSuperuser)
      ensures r.Failure? ==> users == old(users) && nextId == old(nextId)
      ensures extra.isStaff.GetOr(true) && extra.isSuperuser.GetOr(true) && (email.None? || email.value == []) ==>
                r == Failure(MissingEmail)
      ensures extra.isStaff.GetOr(true) && extra.isSuperuser.GetOr(true) ==>
                (r.Failure? <==> email.None? || email.value == [] || EmailInUse(old(users), NormalizeEmail(email)))
      ensures extra.isStaff.GetOr(true) && extra.isSuperuser.GetOr(true) && email.Some? && email.value != []
              && EmailInUse(old(users), NormalizeEmail(email)) ==>
                r == Failure(DuplicateEmail)
      ensures r.Success? ==>
                r.value == User(old(nextId), NormalizeEmail(email), extra.firstName.GetOr(""),
                                extra.lastName.GetOr(""), extra.phoneNumber,
                                extra.role.GetOr(Admin), extra.status.GetOr(Active),
                                true, true, extra.isActive.GetOr(true), password)
                && users == old(users)[old(nextId) := r.value]
                && nextId == old(nextId) + 1
    {
      var fields := extra;
      if fields.isStaff.None? {
        fields := fields.(isStaff := Some(true));
      }
      if fields.isSuperuser.None? {
        fields := fields.(isSuperuser := Some(true));
      }
      if fields.role.None? {
        fields := fields.(role := Some(Admin));
      }
      if fields.status.None? {
        fields := fields.(status := Some(Active));
      }
      if !fields.isStaff.value {
        return Failure(NotStaff);
      }
      if !fields.isSuperuser.value {
        return Failure(NotSuperuser);
      }
      r := CreateUser(email, password, fields);
    }

    /** `UserCreateSerializer.create`: the password goes to `create_user`
        separately, every other validated field as a keyword argument. */
    method CreateFromData(d: NewUserData) returns (r: Result<User, CreateUserError>)
      requires Valid()
      modifies this
      ensures Valid()
      ensures r.Failure? ==> users == old(users) && nextId == old(nextId)
      ensures d.email != [] ==> (r.Failure? <==> EmailInUse(old(users), NormalizeEmail(Some(d.email))))
      ensures r.Success? ==>
                r.value == User(old(nextId), NormalizeEmail(Some(d.email)), d.firstName, d.lastName,
                                d.phoneNumber, d.role.GetOr(RegularUser), d.status.GetOr(Active),
                                false, false, true, Some(d.password))
                && CheckPassword(r.value, d.password)
                && users == old(users)[old(nextId) := r.value] && nextId == old(nextId) + 1
    {
      r := CreateUser(Some(d.email), Some(d.password),
                      ExtraFields(Some(d.firstName), Some(d.lastName), d.phoneNumber, d.role, d.status, None, None, None));
    }

    /** Saves `u` over its stored row; the email is the stored one, so the
        unique column stays unique. */
    method Save(u: User)
      requires Valid() && u.id in users && u.email == users[u.id].email
      modifies this
      ensures Valid()
      ensures users == old(users)[u.id := u] && nextId == old(nextId)
    {
      users := users[u.id := u];
    }
  }

  /** A registration that passes the serializer's email check can still
      collide in the insert: the serializer compares the email as typed, the
      manager stores it normalised. An email that differs from a stored one
      but normalises onto it is not in use as typed. */
  lemma NormalizedCollision(stored: User, typed: string)
    requires typed != stored.email && NormalizeEmail(Some(typed)) == stored.email
    ensures !EmailInUse(map[stored.id := stored], typed)
    ensures EmailInUse(map[stored.id := stored], NormalizeEmail(Some(typed)))
  {
    assert map[stored.id := stored][stored.id].email == NormalizeEmail(Some(typed));
  }

  lemma ExampleDomainsDiffer(local: string, domain: string, lowered: string)
    requires local == "TEST" && domain == "EXAMPLE.COM" && lowered == "example.com"
    ensures local + "@" + domain != local + "@" + lowered
  {
    assert (local + "@" + domain)[5] == domain[0];
    assert (local + "@" + lowered)[5] == lowered[0];
  }

  /** Such an email exists: with TEST@example.com stored, TEST@EXAMPLE.COM. */
  lemma DomainCaseSlipsPastSerializer(stored: User, local: string, domain: string, typed: string)
    requires local == "TEST" && domain == "EXAMPLE.COM" && typed == local + "@" + domain
    requires stored.email == local + "@" + "example.com"
    ensures !EmailInUse(map[stored.id := stored], typed)
    ensures EmailInUse(map[stored.id := stored], NormalizeEmail(Some(typed)))
  {
    NormalizeExample(local, domain);
    ExampleDomainsDiffer(local, domain, "example.com");
    NormalizedCollision(stored, typed);
  }
}
