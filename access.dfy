/** Who is asking and what the permission classes decide: DRF's
    `IsAuthenticated` and `IsAdminUser`, the two custom classes of
    core/permissions/base.py, and how a refusal becomes 401 or 403. */
module Access {
  import opened Wrappers
  import opened Users

  /** The requester of one HTTP request: anonymous, or a user whose token was
      accepted. */
  datatype Requester = Anonymous | Authenticated(user: User)

  datatype HttpMethod = Get | Head | Options | Post | Put | Patch | Delete

  /** DRF's `SAFE_METHODS`. */
  predicate IsSafe(m: HttpMethod) {
    m == Get || m == Head || m == Options
  }

  /** The permission classes the views use. */
  datatype Permission = AllowAny | IsAuthenticated | IsAdminUser | IsAdminOrReadOnly

  /** `has_permission` of each class. `IsAdminUser` looks at `is_staff`, not at
      the role; `IsAdminOrReadOnly` looks at the role. */
  predicate HasPermission(p: Permission, req: Requester, m: HttpMethod) {
    match p
    case AllowAny => true
    case IsAuthenticated => req.Authenticated?
    case IsAdminUser => req.Authenticated? && req.user.isStaff
    case IsAdminOrReadOnly => IsSafe(m) || (req.Authenticated? && IsAdmin(req.user))
  }

  /** `IsAdminOrReadOnly`: safe methods are open to everyone, anonymous
      requesters included; a write needs an authenticated requester with the
      ADMIN role, whatever `is_staff` says. */
  lemma AdminOrReadOnlyDecides(req: Requester, m: HttpMethod)
    ensures IsSafe(m) ==> HasPermission(IsAdminOrReadOnly, req, m)
    ensures !IsSafe(m) ==>
              (HasPermission(IsAdminOrReadOnly, req, m) <==> req.Authenticated? && req.user.role == Admin)
  {
  }

  /** The outcome of the permission stage: go on, or stop with a status. */
  datatype Decision = Allow | Deny(status: int)

  /** `check_permissions`: every class must agree; the first refusal stops
      the request with 401 for an anonymous requester (JWT authentication is
      configured) and 403 for an authenticated one. */
  function CheckPermissions(perms: seq<Permission>, req: Requester, m: HttpMethod): (d: Decision)
    ensures d == Allow <==> forall i :: 0 <= i < |perms| ==> HasPermission(perms[i], req, m)
    ensures d.Deny? ==> d.status == (if req.Anonymous? then 401 else 403)
  {
    if perms == [] then Allow
    else if !HasPermission(perms[0], req, m) then Deny(if req.Anonymous? then 401 else 403)
    else
      var rest := CheckPermissions(perms[1..], req, m);
      assert forall i :: 1 <= i < |perms| ==> perms[i] == perms[1..][i - 1];
      rest
  }

  /** What `IsOwnerOrAdmin` looks at on an object: a `user` attribute, else a
      `created_by` attribute (which may be null), else nothing. */
  datatype Owned = HasUser(owner: nat) | HasCreatedBy(creator: Option<nat>) | Unowned

  /** `IsOwnerOrAdmin.has_object_permission`. `None` is the AttributeError the
      code raises when an anonymous requester tries to write: it reaches
      `request.user.is_admin`, which an anonymous user does not have. */
  function OwnerOrAdmin(req: Requester, m: HttpMethod, obj: Owned): (r: Option<bool>)
    ensures IsSafe(m) ==> r == Some(true)
    ensures !IsSafe(m) && req.Anonymous? ==> r.None?
    ensures req.Authenticated? ==> r.Some?
  {
    if IsSafe(m) then Some(true)
    else if req.Anonymous? then None
    else
      var u := req.user;
      match obj
      case HasUser(owner) => Some(owner == u.id || IsAdmin(u))
      case HasCreatedBy(creator) => Some(creator == Some(u.id) || IsAdmin(u))
      case Unowned => Some(IsAdmin(u))
  }

  /** For an authenticated requester a write is allowed exactly to the owner
      (the `user`, else the creator) or an admin; an object with neither is
      admin-only; an admin may do anything to any object. */
  lemma OwnerOrAdminDecides(u: User, m: HttpMethod, obj: Owned)
    requires !IsSafe(m)
    ensures obj.HasUser? ==> (OwnerOrAdmin(Authenticated(u), m, obj) == Some(true) <==> obj.owner == u.id || u.role == Admin)
    ensures obj.HasCreatedBy? ==>
              (OwnerOrAdmin(Authenticated(u), m, obj) == Some(true) <==> obj.creator == Some(u.id) || u.role == Admin)
    ensures obj.Unowned? ==> (OwnerOrAdmin(Authenticated(u), m, obj) == Some(true) <==> u.role == Admin)
    ensures u.role == Admin ==> OwnerOrAdmin(Authenticated(u), m, obj) == Some(true)
  {
  }
}
