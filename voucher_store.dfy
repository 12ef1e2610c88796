/** The vouchers and usage tables as one object that the serializers' `create`
    methods and `increment_usage` change in place. Rows are keyed by their
    (upper-cased) code; usage records refer to a voucher by id. */
module VoucherStore {
  import opened Wrappers
  import opened Text
  import opened Forms
  import opened Vouchers
  import opened VoucherChecks
  import VoucherCreate

  /** How many records in `usages` belong to the voucher with id `id`. */
  function CountFor(usages: seq<VoucherUsage>, id: nat): (n: nat)
    ensures n <= |usages|
  {
    if usages == [] then 0
    else CountFor(usages[..|usages| - 1], id) + (if usages[|usages| - 1].voucherId == id then 1 else 0)
  }

  /** Appending a record adds one to its own voucher's count and to no other. */
  lemma CountForAppend(usages: seq<VoucherUsage>, u: VoucherUsage, id: nat)
    ensures CountFor(usages + [u], id) == CountFor(usages, id) + (if u.voucherId == id then 1 else 0)
  {
    assert (usages + [u])[..|usages + [u]| - 1] == usages;
  }

  /** A voucher id no record refers to has no records. */
  lemma {:induction false} CountForUnused(usages: seq<VoucherUsage>, id: nat)
    requires forall i :: 0 <= i < |usages| ==> usages[i].voucherId != id
    ensures CountFor(usages, id) == 0
  {
    if usages != [] {
      CountForUnused(usages[..|usages| - 1], id);
    }
  }

  /** Why creating through the unified create request failed. */
  datatype CreateError = InvalidRequest(errors: seq<FieldError>) | IntegrityError

  class VoucherDb {
    var vouchers: map<string, Voucher>
    var usages: seq<VoucherUsage>
    var nextId: nat

    /** Rows sit under their own code with distinct ids below `nextId`; every
        record refers to an id below `nextId`; each row's `usage_count` is the
        number of its records. */
    ghost predicate Valid()
      reads this
    {
      (forall c :: c in vouchers ==> vouchers[c].code == c && vouchers[c].id < nextId)
      && (forall c, d :: c in vouchers && d in vouchers && c != d ==> vouchers[c].id != vouchers[d].id)
      && (forall i :: 0 <= i < |usages| ==> usages[i].voucherId < nextId)
      && (forall c :: c in vouchers ==> vouchers[c].usageCount == CountFor(usages, vouchers[c].id))
    }

    constructor ()
      ensures vouchers == map[] && usages == [] && nextId == 0
      ensures Valid()
    {
      vouchers := map[];
      usages := [];
      nextId := 0;
    }

    /** `increment_usage` on the row stored under `code`. */
    method IncrementUsage(code: string, now: int)
      requires code in vouchers
      modifies this
      ensures vouchers == old(vouchers)[code := Incremented(old(vouchers)[code], now)]
      ensures usages == old(usages) && nextId == old(nextId)
    {
      var v := vouchers[code];
      var count := v.usageCount + 1;
      var status := v.status;
      if v.usageLimit.Some? && v.usageLimit.value != 0 && count >= v.usageLimit.value {
        status := Used;
      }
      vouchers := vouchers[code := v.(usageCount := count, status := status, updatedAt := now)];
    }

    /** `VoucherUsageCreateSerializer.create`: one record for the voucher under
        `code`, with the requester as user and the amounts as supplied, then
        one increment of that voucher. */
    method RecordUsage(code: string, userId: nat, purchase: int, discount: int, now: int)
      returns (usage: VoucherUsage)
      requires Valid() && code in vouchers
      modifies this
      ensures Valid()
      ensures usage == VoucherUsage(old(vouchers)[code].id, userId, purchase, discount, now)
      ensures usages == old(usages) + [usage]
      ensures vouchers == old(vouchers)[code := Incremented(old(vouchers)[code], now)]
      ensures nextId == old(nextId)
    {
      usage := VoucherUsage(vouchers[code].id, userId, purchase, discount, now);
      forall c | c in vouchers
        ensures CountFor(usages + [usage], vouchers[c].id)
                == CountFor(usages, vouchers[c].id) + (if c == code then 1 else 0)
      {
        CountForAppend(usages, usage, vouchers[c].id);
      }
      usages := usages + [usage];
      IncrementUsage(code, now);
    }

    /** A redemption request: checked as `VoucherUsageCreateSerializer`
        checks it; if accepted, recorded. A refused request changes nothing,
        and an accepted one never takes a voucher past its limit. */
    method Redeem(code: Option<string>, purchase: Option<int>, discount: Option<int>, userId: nat, now: int)
      returns (r: Result<VoucherUsage, seq<FieldError>>)
      requires Valid()
      modifies this
      ensures Valid()
      ensures var check := CheckRedemption(old(vouchers), code, purchase, discount, now);
              (r.Failure? <==> check.Failure?)
              && (r.Failure? ==> r.error == check.error)
      ensures r.Failure? ==> vouchers == old(vouchers) && usages == old(usages)
      ensures r.Success? ==>
                var key := Upper(Strip(code.value));
                key in old(vouchers) && IsValid(old(vouchers)[key], now)
                && r.value == VoucherUsage(old(vouchers)[key].id, userId, purchase.value, discount.value, now)
                && usages == old(usages) + [r.value]
                && vouchers == old(vouchers)[key := Incremented(old(vouchers)[key], now)]
      ensures forall c :: c in old(vouchers) && WithinLimit(old(vouchers)[c]) ==> c in vouchers && WithinLimit(vouchers[c])
      ensures nextId == old(nextId)
    {
      var check := CheckRedemption(vouchers, code, purchase, discount, now);
      if check.Failure? {
        return Failure(check.error);
      }
      var key := Upper(check.value.voucherCode);
      var usage := RecordUsage(key, userId, check.value.purchaseAmount, check.value.discountApplied, now);
      return Success(usage);
    }

    /** Stores a new row under its code with the next id. */
    method Insert(v: Voucher)
      requires Valid() && v.code !in vouchers && v.id == nextId && v.usageCount == 0
      modifies this
      ensures Valid()
      ensures vouchers == old(vouchers)[v.code := v] && usages == old(usages) && nextId == old(nextId) + 1
    {
      CountForUnused(usages, v.id);
      vouchers := vouchers[v.code := v];
      nextId := nextId + 1;
    }

    /** Replaces the row under `code` by `v`, which keeps its id and count and
        may move to a new code no other row holds. */
    method Replace(code: string, v: Voucher)
      requires Valid() && code in vouchers
      requires v.id == vouchers[code].id && v.usageCount == vouchers[code].usageCount
      requires v.code == code || v.code !in vouchers
      modifies this
      ensures Valid()
      ensures vouchers == (old(vouchers) - {code})[v.code := v]
      ensures usages == old(usages) && nextId == old(nextId)
    {
      vouchers := (vouchers - {code})[v.code := v];
    }

    /** `VoucherCreateSerializer.is_valid` then `create`, with `created_by`
        and the clock as parameters. A code that passed `validate_code`
        because it belongs to a free-shipping or base voucher still collides
        with the table's unique code: the insert fails and nothing changes. */
    method CreateFromRequest(req: VoucherCreate.CreateRequest, createdBy: Option<nat>, now: int)
      returns (r: Result<Voucher, CreateError>)
      requires Valid()
      modifies this
      ensures Valid()
      ensures usages == old(usages)
      ensures r.Failure? ==> vouchers == old(vouchers) && nextId == old(nextId)
      ensures VoucherCreate.CheckFields(old(vouchers), req).Failure? ==>
                r == Failure(InvalidRequest(VoucherCreate.CheckFields(old(vouchers), req).error))
      ensures VoucherCreate.CheckFields(old(vouchers), req).Success? ==>
                var a := VoucherCreate.CheckFields(old(vouchers), req).value;
                var checked := VoucherCreate.Validated(a, now);
                (checked.Failure? ==> r == Failure(InvalidRequest(checked.error)))
                && (checked.Success? && a.code in old(vouchers) ==> r == Failure(IntegrityError))
                && (checked.Success? && a.code !in old(vouchers) ==>
                      r == Success(VoucherCreate.BuildVoucher(checked.value, old(nextId), createdBy, now))
                      && vouchers == old(vouchers)[a.code := r.value])
    {
      var fields := VoucherCreate.CheckFields(vouchers, req);
      if fields.Failure? {
        return Failure(InvalidRequest(fields.error));
      }
      var checked := VoucherCreate.Validate(fields.value, now);
      if checked.Failure? {
        return Failure(InvalidRequest(checked.error));
      }
      VoucherCreate.ValidatedDates(fields.value, now);
      var a := checked.value;
      if a.code in vouchers {
        return Failure(IntegrityError);
      }
      var v := VoucherCreate.BuildVoucher(a, nextId, createdBy, now);
      Insert(v);
      return Success(v);
    }
  }

  /** A code held by a free-shipping voucher passes the create request's code
      check, so the only thing that stops the duplicate is the database. */
  lemma FreeShippingCodePassesCreateCheck(vouchers: map<string, Voucher>, value: string)
    requires Upper(value) in vouchers && vouchers[Upper(value)].kind.FreeShipping?
    ensures VoucherCreate.ValidateCode(vouchers, value).Success?
  {
  }
}
