/** The voucher record of models/base.py with its three variants, the
    validity predicates, the date check of `clean` and the effect of
    `increment_usage` on one row. Instants are integer seconds. */
module Vouchers {
  import opened Wrappers
  import opened Discounts

  datatype VoucherStatus = Active | Expired | Used | Cancelled

  /** `get_status_display()`: the human-readable label of each status. */
  function StatusLabel(s: VoucherStatus): string {
    match s
    case Active => "Active"
    case Expired => "Expired"
    case Used => "Used"
    case Cancelled => "Cancelled"
  }

  /** The payload of each concrete voucher class. `Plain` is a row of the base
      class itself, which the generic voucher serializer can create. Amounts
      are in cents, the percentage in hundredths of a percent. */
  datatype Kind =
    | Percentage(discountPercentage: int, maxDiscountAmount: Option<int>, minPurchaseAmount: int)
    | FixedAmount(discountAmount: int, minPurchaseAmount: int)
    | FreeShipping(minPurchaseAmount: int, maxShippingAmount: Option<int>)
    | Plain

  /** The field validators of the variant models. */
  predicate KindFieldsValid(k: Kind) {
    match k
    case Percentage(pct, cap, min) => PercentageFieldsValid(pct, cap, min)
    case FixedAmount(amount, min) => FixedFieldsValid(amount, min)
    case FreeShipping(min, cap) => FreeShippingFieldsValid(min, cap)
    case Plain => true
  }

  /** One row of the vouchers table. `id` is the primary key, which usage
      records refer to; `code` is unique. */
  datatype Voucher = Voucher(
    id: nat,
    code: string,
    name: string,
    description: string,
    status: VoucherStatus,
    validFrom: int,
    validUntil: int,
    usageLimit: Option<nat>,
    usageCount: nat,
    createdBy: Option<nat>,
    createdAt: int,
    updatedAt: int,
    kind: Kind)

  /** One row of the usage table (models/usage.py): which voucher, which user,
      the two amounts as they were supplied, and when. */
  datatype VoucherUsage = VoucherUsage(
    voucherId: nat,
    userId: nat,
    purchaseAmount: int,
    discountApplied: int,
    usedAt: int)

  /** Python truthiness of `usage_limit`: a limit of 0 counts as no limit. */
  predicate LimitTruthy(v: Voucher) {
    v.usageLimit.Some? && v.usageLimit.value != 0
  }

  /** The `is_valid` property at instant `now`. */
  predicate IsValid(v: Voucher, now: int) {
    v.status == Active
    && InWindow(v.validFrom, v.validUntil, now)
    && (v.usageLimit.None? || v.usageCount < v.usageLimit.value)
  }

  /** The `is_expired` property at instant `now`. */
  predicate IsExpired(v: Voucher, now: int) {
    now > v.validUntil
  }

  /** An expired voucher is never valid, and a valid one is active and has
      uses left. */
  lemma ExpiredNeverValid(v: Voucher, now: int)
    ensures IsExpired(v, now) ==> !IsValid(v, now)
    ensures IsValid(v, now) ==> v.status == Active && (LimitTruthy(v) ==> v.usageCount < v.usageLimit.value)
  {
  }

  /** `Voucher.clean`: both dates set and `valid_until <= valid_from` is an error. */
  function Clean(validFrom: Option<int>, validUntil: Option<int>): (r: Result<(), string>)
    ensures r.Failure? ==> r.error == "Valid until date must be after valid from date"
  {
    if validFrom.Some? && validUntil.Some? && validUntil.value <= validFrom.value
    then Failure("Valid until date must be after valid from date")
    else Success(())
  }

  /** The date part of `is_valid`: instant `t` lies in the closed window. */
  predicate InWindow(validFrom: int, validUntil: int, t: int) {
    validFrom <= t <= validUntil
  }

  /** With both dates set, `clean` accepts exactly the windows holding at
      least two distinct instants (a window of a single instant is refused
      although `is_valid` could hold at it); a missing date is never rejected. */
  lemma CleanAcceptsProperWindows(validFrom: Option<int>, validUntil: Option<int>)
    ensures validFrom.None? || validUntil.None? ==> Clean(validFrom, validUntil).Success?
    ensures validFrom.Some? && validUntil.Some? ==>
              (Clean(validFrom, validUntil).Success?
               <==> exists t1, t2 :: t1 < t2 && InWindow(validFrom.value, validUntil.value, t1)
                                     && InWindow(validFrom.value, validUntil.value, t2))
  {
    if validFrom.Some? && validUntil.Some? && validFrom.value < validUntil.value {
      assert InWindow(validFrom.value, validUntil.value, validFrom.value);
      assert InWindow(validFrom.value, validUntil.value, validUntil.value);
    }
  }

  /** The row after `increment_usage` at instant `now` (the save refreshes
      `updated_at`). */
  function Incremented(v: Voucher, now: int): Voucher {
    var count := v.usageCount + 1;
    v.(usageCount := count,
       status := if LimitTruthy(v) && count >= v.usageLimit.value then Used else v.status,
       updatedAt := now)
  }

  /** `increment_usage` adds exactly one use and touches nothing but the count,
      the status and `updated_at`. */
  lemma IncrementFrame(v: Voucher, now: int)
    ensures Incremented(v, now).usageCount == v.usageCount + 1
    ensures Incremented(v, now).updatedAt == now
    ensures Incremented(v, now).(usageCount := v.usageCount, status := v.status, updatedAt := v.updatedAt) == v
  {
  }

  /** The status becomes USED exactly when the limit is set, non-zero and
      reached by the new count; otherwise it is left as it was. */
  lemma IncrementMarksUsed(v: Voucher, now: int)
    ensures LimitTruthy(v) && v.usageCount + 1 >= v.usageLimit.value ==> Incremented(v, now).status == Used
    ensures !(LimitTruthy(v) && v.usageCount + 1 >= v.usageLimit.value) ==> Incremented(v, now).status == v.status
  {
  }

  /** Starting below the limit, one increment never overshoots it; the count
      reaches the limit exactly when the voucher is marked USED, and from then
      on it is never valid. */
  lemma IncrementReachesLimit(v: Voucher, now: int, later: int)
    requires v.status == Active && v.usageLimit.Some? && v.usageCount < v.usageLimit.value
    ensures Incremented(v, now).usageCount <= v.usageLimit.value
    ensures Incremented(v, now).usageCount == v.usageLimit.value <==> Incremented(v, now).status == Used
    ensures Incremented(v, now).status == Used ==> !IsValid(Incremented(v, now), later)
  {
  }

  /** A limit of 0 makes the voucher never valid, yet incrementing never marks
      it USED. */
  lemma ZeroLimitNeverValid(v: Voucher, now: int, at: int)
    requires v.usageLimit == Some(0)
    ensures !IsValid(v, at)
    ensures Incremented(v, now).status == v.status
  {
  }

  /** The redemption invariant: a set limit is never exceeded. */
  predicate WithinLimit(v: Voucher) {
    v.usageLimit.Some? ==> v.usageCount <= v.usageLimit.value
  }

  /** One redemption attempt at instant `t`: only a valid voucher is incremented. */
  function RedeemAt(v: Voucher, t: int): Voucher {
    if IsValid(v, t) then Incremented(v, t) else v
  }

  /** The voucher after a sequence of redemption attempts, oldest first. */
  function RedeemAll(v: Voucher, times: seq<int>): Voucher
    decreases |times|
  {
    if times == [] then v else RedeemAll(RedeemAt(v, times[0]), times[1..])
  }

  /** The number of attempts in `times` that succeed, starting from `v`. */
  function Successes(v: Voucher, times: seq<int>): nat
    decreases |times|
  {
    if times == [] then 0
    else (if IsValid(v, times[0]) then 1 else 0) + Successes(RedeemAt(v, times[0]), times[1..])
  }

  /** However many redemptions are attempted in sequence, the count grows by
      the number that succeed, never passes a set limit, and the id and code
      stay put. */
  lemma {:induction false} RedeemAllWithinLimit(v: Voucher, times: seq<int>)
    requires WithinLimit(v)
    ensures WithinLimit(RedeemAll(v, times))
    ensures RedeemAll(v, times).usageCount == v.usageCount + Successes(v, times)
    ensures RedeemAll(v, times).id == v.id && RedeemAll(v, times).code == v.code
    decreases |times|
  {
    if times != [] {
      var w := RedeemAt(v, times[0]);
      assert WithinLimit(w);
      RedeemAllWithinLimit(w, times[1..]);
    }
  }
}
