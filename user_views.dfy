/** The user endpoints of users/views/user_viewset.py: who sees which users,
    the permission table, the self-or-admin checks, the serializer choice, the
    state changes of update, `change_password`, `activate` and `deactivate`,
    and the per-user voucher and usage listings. */
module UserViews {
  import opened Wrappers
  import opened Forms
  import opened Users
  import opened UserSerializers
  import opened UserStore
  import opened Access
  import opened Vouchers
  import opened VoucherViews

  // ---------------------------------------------------------------------------
  // Which users a requester can reach
  // ---------------------------------------------------------------------------

  /** `get_queryset`: an admin sees every user; another authenticated user
      sees the users that are ACTIVE with `is_active` set, and themselves;
      an anonymous requester sees nobody. */
  predicate UserVisible(req: Requester, target: User) {
    req.Authenticated?
    && (IsAdmin(req.user) || (target.status == UserStatus.Active && target.isActive) || target.id == req.user.id)
  }

  function VisibleUsers(req: Requester, users: map<nat, User>): (r: map<nat, User>)
    ensures forall id :: id in r <==> id in users && UserVisible(req, users[id])
    ensures forall id :: id in r ==> r[id] == users[id]
  {
    map id | id in users && UserVisible(req, users[id]) :: users[id]
  }

  /** The visible users are a part of the table: all of it for an admin,
      nothing for an anonymous requester, and for anyone else the active
      users plus their own row. */
  lemma UserVisibilityRules(req: Requester, users: map<nat, User>)
    ensures VisibleUsers(req, users).Keys <= users.Keys
    ensures req.Anonymous? ==> VisibleUsers(req, users) == map[]
    ensures req.Authenticated? && req.user.role == Admin ==> VisibleUsers(req, users) == users
    ensures req.Authenticated? && req.user.role != Admin ==>
              forall id :: id in users ==>
                (id in VisibleUsers(req, users) <==>
                   (users[id].status == UserStatus.Active && users[id].isActive) || users[id].id == req.user.id)
  {
  }

  /** `get_object`: a user outside the visible set is reported as missing. */
  function GetUser(req: Requester, users: map<nat, User>, id: nat): (r: Result<User, int>)
    ensures r.Success? <==> id in users && UserVisible(req, users[id])
    ensures r.Success? ==> r.value == users[id]
    ensures r.Failure? ==> r.error == 404
  {
    if id in users && UserVisible(req, users[id]) then Success(users[id]) else Failure(404)
  }

  /** `IsAdminUser` looks at `is_staff`, the queryset at the role: a staff
      member whose role is not ADMIN passes the permission of `activate`, yet
      cannot reach a deactivated user, who is reported as missing. */
  lemma StaffWithoutAdminRoleCannotReachInactive(u: User, users: map<nat, User>, id: nat)
    requires u.isStaff && u.role != Admin
    requires id in users && !users[id].isActive && users[id].id != u.id
    ensures HasPermission(IsAdminUser, Authenticated(u), Post)
    ensures GetUser(Authenticated(u), users, id) == Failure(404)
  {
  }

  // ---------------------------------------------------------------------------
  // Permissions, serializers, self-or-admin
  // ---------------------------------------------------------------------------

  datatype UserAction =
    | ListUsers | RetrieveUser | CreateUser | UpdateUser | PartialUpdateUser | DestroyUser
    | Me | ChangePassword | Activate | Deactivate | UserVouchers | UserVoucherUsages

  /** `get_permissions`: registration is open to everyone; destroy, activate
      and deactivate need `IsAdminUser`; every other action authentication. */
  function UserPermissionsFor(a: UserAction): (r: seq<Permission>)
    ensures a == CreateUser ==> r == [AllowAny]
    ensures a in {DestroyUser, Activate, Deactivate} ==> r == [IsAdminUser]
    ensures a !in {CreateUser, DestroyUser, Activate, Deactivate} ==> r == [IsAuthenticated]
  {
    if a == CreateUser then [AllowAny]
    else if a in {DestroyUser, Activate, Deactivate} then [IsAdminUser]
    else [IsAuthenticated]
  }

  function UserPermissionDecision(req: Requester, a: UserAction, m: HttpMethod): Decision {
    CheckPermissions(UserPermissionsFor(a), req, m)
  }

  /** Anybody may register; an anonymous requester gets 401 for everything
      else; the admin-only actions admit exactly the staff. */
  lemma UserPermissionTable(req: Requester, a: UserAction, m: HttpMethod)
    ensures a == CreateUser ==> UserPermissionDecision(req, a, m) == Allow
    ensures a != CreateUser && req.Anonymous? ==> UserPermissionDecision(req, a, m) == Deny(401)
    ensures a in {DestroyUser, Activate, Deactivate} && req.Authenticated? ==>
              (UserPermissionDecision(req, a, m) == Allow <==> req.user.isStaff)
              && (!req.user.isStaff ==> UserPermissionDecision(req, a, m) == Deny(403))
    ensures a !in {CreateUser, DestroyUser, Activate, Deactivate} && req.Authenticated? ==>
              UserPermissionDecision(req, a, m) == Allow
  {
    assert UserPermissionsFor(a)[0] == UserPermissionsFor(a)[0];
  }

  datatype UserSerializerChoice =
    | CreateSerializer | UpdateSerializer | AdminSerializer | UserListSerializer | PasswordSerializer | PlainSerializer

  /** `get_serializer_class`: create, update and change_password have their
      own serializers; an admin gets the admin serializer everywhere else,
      anyone else the list serializer for list and the plain one otherwise. */
  function UserSerializerFor(a: UserAction, req: Requester): (r: UserSerializerChoice)
    ensures a == CreateUser ==> r == CreateSerializer
    ensures a in {UpdateUser, PartialUpdateUser} ==> r == UpdateSerializer
    ensures a == ChangePassword ==> r == PasswordSerializer
    ensures a !in {CreateUser, UpdateUser, PartialUpdateUser, ChangePassword} ==>
              (r == AdminSerializer <==> req.Authenticated? && req.user.role == Admin)
    ensures a == ListUsers && !(req.Authenticated? && req.user.role == Admin) ==> r == UserListSerializer
    ensures (a !in {CreateUser, UpdateUser, PartialUpdateUser, ChangePassword, ListUsers}
             && !(req.Authenticated? && req.user.role == Admin)) ==> r == PlainSerializer
  {
    var admin := req.Authenticated? && IsAdmin(req.user);
    if a == CreateUser then CreateSerializer
    else if a in {UpdateUser, PartialUpdateUser} then UpdateSerializer
    else if a == ListUsers then (if admin then AdminSerializer else UserListSerializer)
    else if a == ChangePassword then PasswordSerializer
    else if admin then AdminSerializer
    else PlainSerializer
  }

  /** The check `retrieve`, `update`, `partial_update`, `vouchers` and
      `voucher_usages` make after `get_object`: a non-admin may only act on
      their own row (403). */
  function TargetUser(req: Requester, users: map<nat, User>, id: nat): (r: Result<User, int>)
    requires req.Authenticated?
    ensures GetUser(req, users, id).Failure? ==> r == Failure(404)
    ensures GetUser(req, users, id).Success? ==>
              (r.Success? <==> req.user.role == Admin || users[id].id == req.user.id)
    ensures r.Success? ==> r == GetUser(req, users, id)
    ensures r.Failure? ==> r.error == 404 || r.error == 403
  {
    match GetUser(req, users, id)
    case Failure(s) => Failure(s)
    case Success(target) =>
      if !IsAdmin(req.user) && target.id != req.user.id then Failure(403) else Success(target)
  }

  /** A non-admin reaching a different active user gets 403, and one asking
      for a user outside their view gets 404. */
  lemma OthersForbidden(u: User, users: map<nat, User>, id: nat)
    requires u.role != Admin && id in users && users[id].id == id && id != u.id
    ensures users[id].status == UserStatus.Active && users[id].isActive ==> TargetUser(Authenticated(u), users, id) == Failure(403)
    ensures !(users[id].status == UserStatus.Active && users[id].isActive) ==> TargetUser(Authenticated(u), users, id) == Failure(404)
  {
  }

  /** The requester of an authenticated request is a stored row, as loaded by
      the authentication backend. */
  predicate Resolves(users: map<nat, User>, req: Requester) {
    req.Anonymous? || (req.user.id in users && users[req.user.id] == req.user)
  }

  // ---------------------------------------------------------------------------
  // The actions that write
  // ---------------------------------------------------------------------------

  /** `update` and `partial_update`: authentication (401), `get_object` (404),
      self-or-admin (403), then `UserUpdateSerializer` (400); on success only
      the first name, last name and phone number of the row change (200). */
  method UpdateProfile(db: UserDb, req: Requester, id: nat, body: UserUpdateRequest, partial: bool)
    returns (status: int)
    requires db.Valid()
    modifies db
    ensures db.Valid() && db.nextId == old(db.nextId)
    ensures status != 200 ==> db.users == old(db.users)
    ensures req.Anonymous? ==> status == 401
    ensures req.Authenticated? && TargetUser(req, old(db.users), id).Failure? ==>
              status == TargetUser(req, old(db.users), id).error
    ensures req.Authenticated? && TargetUser(req, old(db.users), id).Success? ==>
              var target := old(db.users)[id];
              var w := CheckUpdate(target, body, partial);
              (w.Failure? ==> status == 400)
              && (w.Success? ==> status == 200 && db.users == old(db.users)[target.id := w.value])
  {
    var m := if partial then Patch else Put;
    var decision := UserPermissionDecision(req, if partial then PartialUpdateUser else UpdateUser, m);
    if decision.Deny? {
      return decision.status;
    }
    var found := TargetUser(req, db.users, id);
    if found.Failure? {
      return found.error;
    }
    var target := found.value;
    var w := CheckUpdate(target, body, partial);
    if w.Failure? {
      return 400;
    }
    UpdateCannotRaisePrivileges(target, body, partial);
    db.Save(w.value);
    return 200;
  }

  /** `change_password`: authentication (401), `PasswordChangeSerializer`
      with the requester's own password (400); on success the requester's
      password becomes the new one and nothing else changes (200). */
  method ChangeOwnPassword(db: UserDb, req: Requester, body: PasswordChangeRequest, passwordOk: string -> bool)
    returns (status: int)
    requires db.Valid() && Resolves(db.users, req)
    modifies db
    ensures db.Valid() && db.nextId == old(db.nextId)
    ensures status != 200 ==> db.users == old(db.users)
    ensures req.Anonymous? ==> status == 401
    ensures req.Authenticated? ==>
              var check := CheckPasswordChange(req.user, body, passwordOk);
              (check.Failure? ==> status == 400)
              && (check.Success? ==>
                    status == 200
                    && db.users == old(db.users)[req.user.id := req.user.(password := Some(check.value))]
                    && CheckPassword(db.users[req.user.id], check.value))
  {
    var decision := UserPermissionDecision(req, ChangePassword, Post);
    if decision.Deny? {
      return decision.status;
    }
    var check := CheckPasswordChange(req.user, body, passwordOk);
    if check.Failure? {
      return 400;
    }
    db.Save(req.user.(password := Some(check.value)));
    return 200;
  }

  /** `activate`: `IsAdminUser` (401/403), `get_object` (404); the user becomes
      ACTIVE with `is_active` set, nothing else changes (200). */
  method ActivateUser(db: UserDb, req: Requester, id: nat) returns (status: int)
    requires db.Valid()
    modifies db
    ensures db.Valid() && db.nextId == old(db.nextId)
    ensures status != 200 ==> db.users == old(db.users)
    ensures UserPermissionDecision(req, Activate, Post).Deny? ==>
              status == UserPermissionDecision(req, Activate, Post).status
    ensures UserPermissionDecision(req, Activate, Post) == Allow ==>
              (GetUser(req, old(db.users), id).Failure? ==> status == 404)
              && (GetUser(req, old(db.users), id).Success? ==>
                    status == 200
                    && db.users == old(db.users)[id := old(db.users)[id].(status := UserStatus.Active, isActive := true)])
  {
    var decision := UserPermissionDecision(req, Activate, Post);
    if decision.Deny? {
      return decision.status;
    }
    var found := GetUser(req, db.users, id);
    if found.Failure? {
      return 404;
    }
    db.Save(found.value.(status := UserStatus.Active, isActive := true));
    return 200;
  }

  /** `deactivate`: as `activate`, but a superuser is refused with 400 and
      left unchanged; anyone else becomes INACTIVE with `is_active` cleared. */
  method DeactivateUser(db: UserDb, req: Requester, id: nat) returns (status: int)
    requires db.Valid()
    modifies db
    ensures db.Valid() && db.nextId == old(db.nextId)
    ensures status != 200 ==> db.users == old(db.users)
    ensures UserPermissionDecision(req, Deactivate, Post).Deny? ==>
              status == UserPermissionDecision(req, Deactivate, Post).status
    ensures UserPermissionDecision(req, Deactivate, Post) == Allow ==>
              (GetUser(req, old(db.users), id).Failure? ==> status == 404)
              && (GetUser(req, old(db.users), id).Success? && old(db.users)[id].isSuperuser ==> status == 400)
              && (GetUser(req, old(db.users), id).Success? && !old(db.users)[id].isSuperuser ==>
                    status == 200
                    && db.users == old(db.users)[id := old(db.users)[id].(status := UserStatus.Inactive, isActive := false)])
  {
    var decision := UserPermissionDecision(req, Deactivate, Post);
    if decision.Deny? {
      return decision.status;
    }
    var found := GetUser(req, db.users, id);
    if found.Failure? {
      return 404;
    }
    if found.value.isSuperuser {
      return 400;
    }
    db.Save(found.value.(status := UserStatus.Inactive, isActive := false));
    return 200;
  }

  // ---------------------------------------------------------------------------
  // A user's vouchers and usage records
  // ---------------------------------------------------------------------------

  /** `vouchers`: authentication (401), the target check (404/403), then the
      vouchers whose creator is that user, newest first (`-created_at`). The
      rows of the table come in any order. */
  function UserVoucherList(req: Requester, users: map<nat, User>, rows: seq<Voucher>, id: nat)
    : (r: Result<seq<Voucher>, int>)
    ensures req.Anonymous? ==> r == Failure(401)
    ensures req.Authenticated? && TargetUser(req, users, id).Failure? ==> r == Failure(TargetUser(req, users, id).error)
    ensures req.Authenticated? && TargetUser(req, users, id).Success? ==> r.Success?
    ensures r.Success? ==> id in users && forall i :: 0 <= i < |r.value| ==> r.value[i].createdBy == Some(users[id].id)
    ensures r.Success? ==> Descending(r.value, (v: Voucher) => v.createdAt)
  {
    match UserPermissionDecision(req, UserVouchers, Get)
    case Deny(s) => Failure(s)
    case Allow =>
      match TargetUser(req, users, id)
      case Failure(s) => Failure(s)
      case Success(target) =>
        SortedFilterKeeps(rows, (v: Voucher) => v.createdBy == Some(target.id), (v: Voucher) => v.createdAt);
        Success(SortDesc(Filter(rows, (v: Voucher) => v.createdBy == Some(target.id)), (v: Voucher) => v.createdAt))
  }

  /** Sorting a filtered sequence keeps only elements that pass the filter. */
  lemma SortedFilterKeeps<T>(s: seq<T>, keep: T -> bool, key: T -> int)
    ensures forall i :: 0 <= i < |SortDesc(Filter(s, keep), key)| ==> keep(SortDesc(Filter(s, keep), key)[i])
  {
    var f := Filter(s, keep);
    var r := SortDesc(f, key);
    forall i | 0 <= i < |r|
      ensures keep(r[i])
    {
      assert r[i] in multiset(r);
      assert r[i] in multiset(f);
      var j :| 0 <= j < |f| && f[j] == r[i];
    }
  }

  /** The list holds exactly the rows that user created, each once per
      occurrence in the table. */
  lemma UserVoucherListExact(req: Requester, users: map<nat, User>, rows: seq<Voucher>, id: nat)
    requires UserVoucherList(req, users, rows, id).Success?
    ensures forall v :: multiset(UserVoucherList(req, users, rows, id).value)[v]
                        == (if v.createdBy == Some(users[id].id) then multiset(rows)[v] else 0)
  {
    FilterExact(rows, (v: Voucher) => v.createdBy == Some(users[id].id));
  }

  /** `voucher_usages`: authentication (401), the target check (404/403),
      then that user's usage records, newest first (the model's ordering). */
  function UserUsageList(req: Requester, users: map<nat, User>, usages: seq<VoucherUsage>, id: nat)
    : (r: Result<seq<VoucherUsage>, int>)
    ensures req.Anonymous? ==> r == Failure(401)
    ensures req.Authenticated? && TargetUser(req, users, id).Failure? ==> r == Failure(TargetUser(req, users, id).error)
    ensures req.Authenticated? && TargetUser(req, users, id).Success? ==> r.Success?
    ensures r.Success? ==> Descending(r.value, (x: VoucherUsage) => x.usedAt)
  {
    match UserPermissionDecision(req, UserVoucherUsages, Get)
    case Deny(s) => Failure(s)
    case Allow =>
      match TargetUser(req, users, id)
      case Failure(s) => Failure(s)
      case Success(target) =>
        Success(SortDesc(Filter(usages, (x: VoucherUsage) => x.userId == target.id), (x: VoucherUsage) => x.usedAt))
  }

  /** The listing holds exactly the target user's records. */
  lemma UserUsageListExact(req: Requester, users: map<nat, User>, usages: seq<VoucherUsage>, id: nat)
    requires UserUsageList(req, users, usages, id).Success?
    ensures forall x :: multiset(UserUsageList(req, users, usages, id).value)[x]
                        == (if x.userId == users[id].id then multiset(usages)[x] else 0)
  {
    FilterExact(usages, (x: VoucherUsage) => x.userId == users[id].id);
  }
}
