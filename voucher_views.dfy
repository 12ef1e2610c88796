/** The voucher endpoints: `VoucherViewSet` (vouchers/views.py), the fixed
    amount viewset's permissions (views/fixed_viewset.py) and the read-only
    `VoucherUsageViewSet` (views/usage_viewset.py). Decisions are functions of
    the requester and the stored rows; the actions that write call the store. */
module VoucherViews {
  import opened Wrappers
  import opened Text
  import opened Forms
  import opened Users
  import opened Vouchers
  import opened VoucherChecks
  import opened VoucherSerializers
  import opened Access
  import opened VoucherStore

  // ---------------------------------------------------------------------------
  // Which vouchers a requester can reach
  // ---------------------------------------------------------------------------

  /** `get_queryset`: admins and managers see every voucher, other
      authenticated users only ACTIVE ones, anonymous requesters none. */
  predicate VoucherVisible(req: Requester, v: Voucher) {
    req.Authenticated? && (IsAdmin(req.user) || IsManager(req.user) || v.status == VoucherStatus.Active)
  }

  function VisibleVouchers(req: Requester, vouchers: map<string, Voucher>): (r: map<string, Voucher>)
    ensures forall c :: c in r <==> c in vouchers && VoucherVisible(req, vouchers[c])
    ensures forall c :: c in r ==> r[c] == vouchers[c]
  {
    map c | c in vouchers && VoucherVisible(req, vouchers[c]) :: vouchers[c]
  }

  /** The visible rows are a part of the table: all of it for admins and
      managers, the ACTIVE rows for everybody else who is signed in, nothing
      for anonymous requesters. */
  lemma VisibilityRules(req: Requester, vouchers: map<string, Voucher>)
    ensures VisibleVouchers(req, vouchers).Keys <= vouchers.Keys
    ensures req.Anonymous? ==> VisibleVouchers(req, vouchers) == map[]
    ensures req.Authenticated? && (req.user.role == Admin || req.user.role == Manager) ==>
              VisibleVouchers(req, vouchers) == vouchers
    ensures req.Authenticated? && req.user.role != Admin && req.user.role != Manager ==>
              forall c :: c in vouchers ==>
                (c in VisibleVouchers(req, vouchers) <==> vouchers[c].status == VoucherStatus.Active)
  {
  }

  /** `get_object`: a row outside the visible set is reported as missing. */
  function GetObject(req: Requester, vouchers: map<string, Voucher>, key: string): (r: Result<Voucher, int>)
    ensures r.Success? <==> key in vouchers && VoucherVisible(req, vouchers[key])
    ensures r.Success? ==> r.value == vouchers[key]
    ensures r.Failure? ==> r.error == 404
  {
    if key in vouchers && VoucherVisible(req, vouchers[key]) then Success(vouchers[key]) else Failure(404)
  }

  /** A regular user asking for an existing voucher that is not ACTIVE gets
      404, exactly as for a voucher that does not exist. */
  lemma RegularUserCannotSeeInactive(u: User, vouchers: map<string, Voucher>, key: string)
    requires u.role == RegularUser || u.role == Guest
    requires key in vouchers && vouchers[key].status != VoucherStatus.Active
    ensures GetObject(Authenticated(u), vouchers, key) == GetObject(Authenticated(u), vouchers - {key}, key)
    ensures GetObject(Authenticated(u), vouchers, key) == Failure(404)
  {
  }

  // ---------------------------------------------------------------------------
  // Permissions and serializer choice
  // ---------------------------------------------------------------------------

  datatype VoucherAction =
    | List | Retrieve | Create | Update | PartialUpdate | Destroy
    | ValidateCodeAction | Usages | UseVoucher

  function MethodOf(a: VoucherAction): HttpMethod {
    match a
    case List => Get
    case Retrieve => Get
    case Create => Post
    case Update => Put
    case PartialUpdate => Patch
    case Destroy => Delete
    case ValidateCodeAction => Post
    case Usages => Get
    case UseVoucher => Post
  }

  /** `get_permissions` of `VoucherViewSet`, and the same table in the fixed
      amount viewset: destroy needs `IsAdminUser`, everything else only
      authentication. The role check for writes comes later, in
      `perform_create` and `perform_update`. */
  function PermissionsFor(a: VoucherAction): (r: seq<Permission>)
    ensures a == Destroy ==> r == [IsAdminUser]
    ensures a != Destroy ==> r == [IsAuthenticated]
  {
    if a == Destroy then [IsAdminUser] else [IsAuthenticated]
  }

  function PermissionDecision(req: Requester, a: VoucherAction): Decision {
    CheckPermissions(PermissionsFor(a), req, MethodOf(a))
  }

  /** Anonymous requests are refused with 401; a signed-in requester passes
      every action but destroy, which needs `is_staff` (so a manager without
      it gets 403). */
  lemma PermissionTable(req: Requester, a: VoucherAction)
    ensures req.Anonymous? ==> PermissionDecision(req, a) == Deny(401)
    ensures req.Authenticated? && a != Destroy ==> PermissionDecision(req, a) == Allow
    ensures req.Authenticated? && a == Destroy ==>
              (PermissionDecision(req, a) == Allow <==> req.user.isStaff)
    ensures req.Authenticated? && a == Destroy && !req.user.isStaff ==> PermissionDecision(req, a) == Deny(403)
  {
    assert PermissionsFor(a)[0] == PermissionsFor(a)[0];
  }

  /** `polymorphic_ctype.model` of a row. */
  function TypeName(k: Kind): string {
    match k
    case Percentage(_, _, _) => "percentagediscountvoucher"
    case FixedAmount(_, _) => "fixedamountvoucher"
    case FreeShipping(_, _) => "freeshippingvoucher"
    case Plain => "voucher"
  }

  /** The serializer a type name selects; anything else gets the base one. */
  function VariantForType(t: Option<string>): (r: Variant) {
    if t == Some("percentagediscountvoucher") then PercentageVariant
    else if t == Some("fixedamountvoucher") then FixedVariant
    else if t == Some("freeshippingvoucher") then FreeShippingVariant
    else BaseVariant
  }

  /** Reading a row's type name back selects the row's own variant. */
  lemma VariantForTypeRoundTrip(k: Kind)
    ensures VariantForType(Some(TypeName(k))) == VariantOf(k)
  {
  }

  datatype SerializerChoice = ListSerializer | ValidateSerializer | VariantSerializer(variant: Variant)

  /** `get_serializer_class`: list and validate have their own serializers;
      create picks by the request's `voucher_type`, update by the instance's
      type (an instance that cannot be fetched gives the base serializer);
      every other action uses the base serializer. */
  function SerializerFor(a: VoucherAction, requestType: Option<string>, instance: Option<Voucher>)
    : (r: SerializerChoice)
    ensures a == List ==> r == ListSerializer
    ensures a == ValidateCodeAction ==> r == ValidateSerializer
    ensures a == Create ==> r == VariantSerializer(VariantForType(requestType))
    ensures (a == Update || a == PartialUpdate) && instance.Some? ==>
              r == VariantSerializer(VariantOf(instance.value.kind))
    ensures a !in {List, ValidateCodeAction, Create, Update, PartialUpdate} ==> r == VariantSerializer(BaseVariant)
  {
    match a
    case List => ListSerializer
    case ValidateCodeAction => ValidateSerializer
    case Create => VariantSerializer(VariantForType(requestType))
    case Update =>
      VariantForTypeRoundTrip(if instance.Some? then instance.value.kind else Plain);
      VariantSerializer(if instance.Some? then VariantForType(Some(TypeName(instance.value.kind))) else BaseVariant)
    case PartialUpdate =>
      VariantForTypeRoundTrip(if instance.Some? then instance.value.kind else Plain);
      VariantSerializer(if instance.Some? then VariantForType(Some(TypeName(instance.value.kind))) else BaseVariant)
    case _ => VariantSerializer(BaseVariant)
  }

  /** The role check of `perform_create` and `perform_update`. */
  predicate CanWriteVouchers(u: User) {
    IsAdmin(u) || IsManager(u)
  }

  // ---------------------------------------------------------------------------
  // Filtering and ordering of listed rows
  // ---------------------------------------------------------------------------

  /** The elements satisfying `keep`, in their stored order. */
  function Filter<T>(s: seq<T>, keep: T -> bool): (r: seq<T>)
    ensures |r| <= |s|
    ensures forall i :: 0 <= i < |r| ==> keep(r[i])
  {
    if s == [] then []
    else (if keep(s[0]) then [s[0]] else []) + Filter(s[1..], keep)
  }

  /** The filter keeps exactly the elements satisfying `keep`, each as often
      as it occurs. */
  lemma {:induction false} FilterExact<T>(s: seq<T>, keep: T -> bool)
    ensures forall x :: multiset(Filter(s, keep))[x] == (if keep(x) then multiset(s)[x] else 0)
  {
    if s != [] {
      FilterExact(s[1..], keep);
      assert s == [s[0]] + s[1..];
    }
  }

  /** Ordered by `key`, largest first (an ordering such as `-used_at`). */
  predicate Descending<T>(s: seq<T>, key: T -> int) {
    forall i, j :: 0 <= i < j < |s| ==> key(s[i]) >= key(s[j])
  }

  /** Inserts `x` into a sequence before the first smaller key. */
  function InsertDesc<T>(x: T, s: seq<T>, key: T -> int): (r: seq<T>)
    ensures multiset(r) == multiset(s) + multiset{x}
  {
    if s == [] || key(s[0]) <= key(x) then [x] + s
    else
      assert s == [s[0]] + s[1..];
      [s[0]] + InsertDesc(x, s[1..], key)
  }

  /** Inserting never brings in a key above a bound that `x` and `s` keep. */
  lemma {:induction false} InsertDescBelow<T>(x: T, s: seq<T>, key: T -> int, b: int)
    requires key(x) <= b && forall k :: 0 <= k < |s| ==> key(s[k]) <= b
    ensures forall k :: 0 <= k < |InsertDesc(x, s, key)| ==> key(InsertDesc(x, s, key)[k]) <= b
  {
    var r := InsertDesc(x, s, key);
    if s == [] || key(s[0]) <= key(x) {
      assert forall k :: 0 < k < |r| ==> r[k] == s[k - 1];
    } else {
      assert forall k :: 0 <= k < |s[1..]| ==> s[1..][k] == s[k + 1];
      InsertDescBelow(x, s[1..], key, b);
      var rest := InsertDesc(x, s[1..], key);
      assert forall k :: 0 < k < |r| ==> r[k] == rest[k - 1];
    }
  }

  /** Inserting into a descending sequence keeps it descending. */
  lemma {:induction false} InsertDescSorted<T>(x: T, s: seq<T>, key: T -> int)
    requires Descending(s, key)
    ensures Descending(InsertDesc(x, s, key), key)
  {
    var r := InsertDesc(x, s, key);
    if s == [] || key(s[0]) <= key(x) {
      forall i, j | 0 <= i < j < |r|
        ensures key(r[i]) >= key(r[j])
      {
        if i == 0 {
          assert r[j] == s[j - 1];
          assert key(s[0]) >= key(s[j - 1]);
        } else {
          assert r[i] == s[i - 1] && r[j] == s[j - 1];
        }
      }
    } else {
      var rest := InsertDesc(x, s[1..], key);
      assert Descending(s[1..], key) by {
        forall i, j | 0 <= i < j < |s[1..]|
          ensures key(s[1..][i]) >= key(s[1..][j])
        {
          assert s[1..][i] == s[i + 1] && s[1..][j] == s[j + 1];
        }
      }
      InsertDescSorted(x, s[1..], key);
      assert s == [s[0]] + s[1..];
      assert key(s[0]) >= key(x);
      InsertDescBelow(x, s[1..], key, key(s[0]));
      assert r == [s[0]] + rest;
      forall i, j | 0 <= i < j < |r|
        ensures key(r[i]) >= key(r[j])
      {
        if i == 0 {
          assert r[j] == rest[j - 1];
        } else {
          assert r[i] == rest[i - 1] && r[j] == rest[j - 1];
        }
      }
    }
  }

  /** The queryset's `ordering`: the same elements, largest key first. */
  function SortDesc<T>(s: seq<T>, key: T -> int): (r: seq<T>)
    ensures multiset(r) == multiset(s)
    ensures Descending(r, key)
  {
    if s == [] then []
    else
      assert s == [s[0]] + s[1..];
      var sorted := SortDesc(s[1..], key);
      InsertDescSorted(s[0], sorted, key);
      InsertDesc(s[0], sorted, key)
  }

  /** The voucher list: the visible rows, newest first (`-created_at`). The
      rows of the table come in any order. */
  function ListVouchers(req: Requester, rows: seq<Voucher>): (r: seq<Voucher>)
    ensures Descending(r, (v: Voucher) => v.createdAt)
  {
    SortDesc(Filter(rows, (v: Voucher) => VoucherVisible(req, v)), (v: Voucher) => v.createdAt)
  }

  /** The list holds exactly the visible rows, each once per occurrence. */
  lemma ListVouchersExact(req: Requester, rows: seq<Voucher>)
    ensures forall v :: multiset(ListVouchers(req, rows))[v] == (if VoucherVisible(req, v) then multiset(rows)[v] else 0)
  {
    FilterExact(rows, (v: Voucher) => VoucherVisible(req, v));
  }

  /** `VoucherUsageViewSet.get_queryset` with its ordering: an admin sees every
      record, anyone else (managers included) only their own; newest first. */
  function VisibleUsages(u: User, usages: seq<VoucherUsage>): (r: seq<VoucherUsage>)
    ensures Descending(r, (x: VoucherUsage) => x.usedAt)
  {
    if IsAdmin(u) then SortDesc(usages, (x: VoucherUsage) => x.usedAt)
    else SortDesc(Filter(usages, (x: VoucherUsage) => x.userId == u.id), (x: VoucherUsage) => x.usedAt)
  }

  /** The records a user sees are records of the table; an admin sees all of
      them; anyone else sees exactly the records whose user they are. */
  lemma VisibleUsagesExact(u: User, usages: seq<VoucherUsage>)
    ensures multiset(VisibleUsages(u, usages)) <= multiset(usages)
    ensures u.role == Admin ==> multiset(VisibleUsages(u, usages)) == multiset(usages)
    ensures u.role != Admin ==>
              forall x :: multiset(VisibleUsages(u, usages))[x] == (if x.userId == u.id then multiset(usages)[x] else 0)
  {
    FilterExact(usages, (x: VoucherUsage) => x.userId == u.id);
  }

  datatype UsageAction = ListUsages | RetrieveUsage | WriteUsage

  /** The usage endpoints: authentication first (401), then only the two read
      actions exist (a write gets 405). */
  function UsageEndpoint(req: Requester, a: UsageAction): (d: Decision)
    ensures req.Anonymous? ==> d == Deny(401)
    ensures req.Authenticated? ==> (d == Allow <==> a != WriteUsage)
    ensures req.Authenticated? && a == WriteUsage ==> d == Deny(405)
  {
    match CheckPermissions([IsAuthenticated], req, if a == WriteUsage then Post else Get)
    case Deny(s) => Deny(s)
    case Allow => if a == WriteUsage then Deny(405) else Allow
  }

  /** The `usages` action on a voucher: the object must be visible (404);
      then only admins, managers and the voucher's creator may read its
      records (403); the records come newest first. */
  function UsageHistory(req: Requester, vouchers: map<string, Voucher>, usages: seq<VoucherUsage>, key: string)
    : (r: Result<seq<VoucherUsage>, int>)
    ensures req.Anonymous? ==> r == Failure(401)
    ensures req.Authenticated? && GetObject(req, vouchers, key).Failure? ==> r == Failure(404)
    ensures req.Authenticated? && GetObject(req, vouchers, key).Success? ==>
              var v := vouchers[key];
              (r.Success? <==> CanWriteVouchers(req.user) || v.createdBy == Some(req.user.id))
              && (r.Failure? ==> r.error == 403)
    ensures r.Success? ==> Descending(r.value, (x: VoucherUsage) => x.usedAt)
  {
    match PermissionDecision(req, Usages)
    case Deny(s) => Failure(s)
    case Allow =>
      match GetObject(req, vouchers, key)
      case Failure(s) => Failure(s)
      case Success(v) =>
        if !(IsAdmin(req.user) || IsManager(req.user) || v.createdBy == Some(req.user.id)) then Failure(403)
        else Success(SortDesc(Filter(usages, (x: VoucherUsage) => x.voucherId == v.id), (x: VoucherUsage) => x.usedAt))
  }

  /** The history holds exactly the records of that voucher. */
  lemma UsageHistoryExact(req: Requester, vouchers: map<string, Voucher>, usages: seq<VoucherUsage>, key: string)
    requires UsageHistory(req, vouchers, usages, key).Success?
    ensures forall x :: multiset(UsageHistory(req, vouchers, usages, key).value)[x]
                        == (if x.voucherId == vouchers[key].id then multiset(usages)[x] else 0)
  {
    FilterExact(usages, (x: VoucherUsage) => x.voucherId == vouchers[key].id);
  }

  // ---------------------------------------------------------------------------
  // The actions that write
  // ---------------------------------------------------------------------------

  /** `create`: permission (401), the checks of the serializer for `variant`
      (400), then `perform_create`'s role check (403); on success the row is
      stored with the requester as `created_by`, whatever the body sent (201).
      `VoucherViewSet` passes the variant its request's `voucher_type`
      selects, the fixed amount viewset always the fixed amount one.
      `userIds` are the ids of the users table. */
  method CreateVoucher(db: VoucherDb, userIds: set<nat>, req: Requester, variant: Variant, w: VoucherWrite,
                       now: int)
    returns (status: int)
    requires db.Valid()
    modifies db
    ensures db.Valid()
    ensures db.usages == old(db.usages)
    ensures status != 201 ==> db.vouchers == old(db.vouchers) && db.nextId == old(db.nextId)
    ensures req.Anonymous? ==> status == 401
    ensures req.Authenticated? ==>
              var check := CheckWrite(old(db.vouchers), userIds, w, variant, None, false);
              (check.Failure? ==> status == 400)
              && (check.Success? && !CanWriteVouchers(req.user) ==> status == 403)
              && (check.Success? && CanWriteVouchers(req.user) ==>
                    status == 201
                    && db.vouchers == old(db.vouchers)[check.value.code.value :=
                                         NewVoucher(check.value, variant, old(db.nextId), Some(req.user.id), now)])
  {
    if PermissionDecision(req, Create).Deny? {
      return PermissionDecision(req, Create).status;
    }
    var check := CheckWrite(db.vouchers, userIds, w, variant, None, false);
    if check.Failure? {
      return 400;
    }
    if !CanWriteVouchers(req.user) {
      return 403;
    }
    AcceptedCreateIsComplete(db.vouchers, userIds, w, variant, false);
    var v := NewVoucher(check.value, variant, db.nextId, Some(req.user.id), now);
    db.Insert(v);
    return 201;
  }

  /** `update` (PUT, `partial` false) and `partial_update` (PATCH, `partial`
      true): permission (401), `get_object` (404), the instance's variant
      serializer (400), then `perform_update`'s role check (403); on success
      the row is patched in place, possibly under a new code or with a new
      creator (200). */
  method UpdateVoucher(db: VoucherDb, userIds: set<nat>, req: Requester, key: string, w: VoucherWrite,
                       partial: bool, now: int)
    returns (status: int)
    requires db.Valid()
    modifies db
    ensures db.Valid()
    ensures db.usages == old(db.usages) && db.nextId == old(db.nextId)
    ensures status != 200 ==> db.vouchers == old(db.vouchers)
    ensures req.Anonymous? ==> status == 401
    ensures req.Authenticated? && GetObject(req, old(db.vouchers), key).Failure? ==> status == 404
    ensures req.Authenticated? && GetObject(req, old(db.vouchers), key).Success? ==>
              var v := old(db.vouchers)[key];
              var check := CheckWrite(old(db.vouchers), userIds, w, VariantOf(v.kind), Some(v), partial);
              (check.Failure? ==> status == 400)
              && (check.Success? && !CanWriteVouchers(req.user) ==> status == 403)
              && (check.Success? && CanWriteVouchers(req.user) ==>
                    status == 200
                    && db.vouchers == (old(db.vouchers) - {key})[Patched(v, check.value, now).code :=
                                                                  Patched(v, check.value, now)])
  {
    if PermissionDecision(req, Update).Deny? {
      return PermissionDecision(req, Update).status;
    }
    var found := GetObject(req, db.vouchers, key);
    if found.Failure? {
      return 404;
    }
    var v := found.value;
    var check := CheckWrite(db.vouchers, userIds, w, VariantOf(v.kind), Some(v), partial);
    if check.Failure? {
      return 400;
    }
    if !CanWriteVouchers(req.user) {
      return 403;
    }
    var patched := Patched(v, check.value, now);
    db.Replace(key, patched);
    return 200;
  }

  /** `use_voucher`: permission (401), `get_object` (404), then the voucher's
      own code with the two amounts of the body goes through the redemption
      serializer (400 when refused, 201 with the new record). */
  method UseVoucherAction(db: VoucherDb, req: Requester, key: string, purchase: Option<int>,
                          discount: Option<int>, now: int)
    returns (status: int, usage: Option<VoucherUsage>)
    requires db.Valid()
    modifies db
    ensures db.Valid()
    ensures status != 201 ==> db.vouchers == old(db.vouchers) && db.usages == old(db.usages) && usage.None?
    ensures req.Anonymous? ==> status == 401
    ensures req.Authenticated? && GetObject(req, old(db.vouchers), key).Failure? ==> status == 404
    ensures req.Authenticated? && GetObject(req, old(db.vouchers), key).Success? ==>
              var check := CheckRedemption(old(db.vouchers), Some(old(db.vouchers)[key].code), purchase, discount, now);
              (status == 201 <==> check.Success?)
              && (status != 201 ==> status == 400)
              && (status == 201 ==>
                    var k := Upper(Strip(old(db.vouchers)[key].code));
                    k in old(db.vouchers)
                    && usage == Some(VoucherUsage(old(db.vouchers)[k].id, req.user.id, purchase.value, discount.value, now))
                    && db.usages == old(db.usages) + [usage.value]
                    && db.vouchers == old(db.vouchers)[k := Incremented(old(db.vouchers)[k], now)])
  {
    if PermissionDecision(req, UseVoucher).Deny? {
      return PermissionDecision(req, UseVoucher).status, None;
    }
    var found := GetObject(req, db.vouchers, key);
    if found.Failure? {
      return 404, None;
    }
    var r := db.Redeem(Some(found.value.code), purchase, discount, req.user.id, now);
    if r.Failure? {
      return 400, None;
    }
    return 201, Some(r.value);
  }
}
