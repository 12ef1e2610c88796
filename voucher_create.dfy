/** The unified create request of serializers/voucher_create.py
    (`VoucherCreateSerializer`): one body with a `discount_type` that becomes
    a fixed-amount or a percentage voucher, optional validity dates and a
    "valid indefinitely" default. */
module VoucherCreate {
  import opened Wrappers
  import opened Text
  import opened Discounts
  import opened Vouchers
  import opened Forms

  /** 36500 days, in seconds: the "valid indefinitely" horizon. */
  const IndefiniteSpan: int := 36500 * 86400

  /** The two choices of the `discount_type` field; free shipping is not one. */
  datatype DiscountType = FixedAmountType | PercentageType

  function ParseDiscountType(s: string): (r: Option<DiscountType>)
    ensures r == Some(FixedAmountType) <==> s == "FIXED_AMOUNT"
    ensures r == Some(PercentageType) <==> s == "PERCENTAGE"
  {
    if s == "FIXED_AMOUNT" then Some(FixedAmountType)
    else if s == "PERCENTAGE" then Some(PercentageType)
    else None
  }

  /** The request body as sent; `None` is an absent (or null) field. */
  datatype CreateRequest = CreateRequest(
    code: Option<string>,
    name: Option<string>,
    description: Option<string>,
    discountType: Option<string>,
    discountAmount: Option<int>,
    maxUses: Option<int>,
    validFrom: Option<int>,
    validUntil: Option<int>,
    validIndefinitely: Option<bool>,
    status: Option<VoucherStatus>)

  /** The `attrs` dict after the field stage (and, later, after `validate`). */
  datatype CreateAttrs = CreateAttrs(
    code: string,
    name: Option<string>,
    description: string,
    discountType: DiscountType,
    discountAmount: int,
    maxUses: Option<int>,
    validFrom: Option<int>,
    validUntil: Option<int>,
    validIndefinitely: bool,
    status: VoucherStatus)

  const CodeTaken: string := "A voucher with this code already exists."

  /** `validate_code`: upper-case the code and refuse it when a fixed-amount or
      a percentage voucher already holds it. Vouchers of the other kinds are
      not consulted. */
  function ValidateCode(vouchers: map<string, Voucher>, value: string): (r: Result<string, string>)
    ensures r.Success? ==> r.value == Upper(value)
    ensures r.Success? <==>
              !(Upper(value) in vouchers
                && (vouchers[Upper(value)].kind.FixedAmount? || vouchers[Upper(value)].kind.Percentage?))
  {
    var code := Upper(value);
    if code in vouchers && vouchers[code].kind.FixedAmount? then Failure(CodeTaken)
    else if code in vouchers && vouchers[code].kind.Percentage? then Failure(CodeTaken)
    else Success(code)
  }

  /** `validate_discount_amount`: a positive amount, returned unchanged. */
  function ValidateDiscountAmount(value: int): (r: Result<int, string>)
    ensures r.Success? <==> value > 0
    ensures r.Success? ==> r.value == value
  {
    if value <= 0 then Failure("Discount amount must be greater than 0.") else Success(value)
  }

  /** The field stage: `code` required, non-blank and through `validate_code`;
      `name` optional but not blank; `discount_type` one of the two choices;
      `discount_amount` required and positive; `max_uses` optional, at least
      1; the rest optional with their defaults. All errors are collected. */
  function CheckFields(vouchers: map<string, Voucher>, req: CreateRequest): (r: Result<CreateAttrs, seq<FieldError>>)
    ensures r.Failure? ==> r.error != []
    ensures r.Success? ==>
              req.code.Some? && !AllSpace(req.code.value)
              && r.value.code == Upper(Strip(req.code.value))
              && ValidateCode(vouchers, Strip(req.code.value)).Success?
              && r.value.discountAmount > 0 && Some(r.value.discountAmount) == req.discountAmount
              && (r.value.maxUses.Some? ==> r.value.maxUses.value >= 1)
              && (r.value.name.Some? ==> r.value.name.value != [])
              && req.discountType.Some? && ParseDiscountType(req.discountType.value) == Some(r.value.discountType)
              && r.value.validFrom == req.validFrom && r.value.validUntil == req.validUntil
              && r.value.validIndefinitely == req.validIndefinitely.GetOr(false)
              && r.value.status == req.status.GetOr(Active)
  {
    var c := match RequiredText(req.code)
             case Failure(p) => Failure(p)
             case Success(t) =>
               match ValidateCode(vouchers, t)
               case Failure(m) => Failure(Rejected(m))
               case Success(u) => Success(u);
    var n := if req.name.None? then Success(None)
             else match RequiredText(req.name)
                  case Failure(p) => Failure(p)
                  case Success(t) => Success(Some(t));
    var t := if req.discountType.None? then Failure(Required)
             else match ParseDiscountType(req.discountType.value)
                  case None => Failure(NotAChoice)
                  case Some(d) => Success(d);
    var a := if req.discountAmount.None? then Failure(Required)
             else match ValidateDiscountAmount(req.discountAmount.value)
                  case Failure(m) => Failure(Rejected(m))
                  case Success(x) => Success(x);
    var u := OptionalAmount(req.maxUses, 1);
    var errors := ErrorsOf("code", c) + ErrorsOf("name", n) + ErrorsOf("discount_type", t)
                  + ErrorsOf("discount_amount", a) + ErrorsOf("max_uses", u);
    if errors != [] then Failure(errors)
    else
      StripEmptyIffAllSpace(req.code.value);
      Success(CreateAttrs(
        code := c.value,
        name := n.value,
        description := if req.description.Some? then Strip(req.description.value) else "",
        discountType := t.value,
        discountAmount := a.value,
        maxUses := u.value,
        validFrom := req.validFrom,
        validUntil := req.validUntil,
        validIndefinitely := req.validIndefinitely.GetOr(false),
        status := req.status.GetOr(Active)))
  }

  const PercentTooHigh: string := "Percentage discount cannot exceed 100."
  const BothDatesRequired: string := "Both valid from and until dates are required."
  const DatesInverted: string := "Valid until date must be after valid from date."

  /** Whether the request ends up "valid indefinitely": asked for, or forced
      because neither date was given. */
  predicate Indefinite(a: CreateAttrs) {
    a.validIndefinitely || (a.validFrom.None? && a.validUntil.None?)
  }

  /** What `validate` decides, stated case by case. It touches only the
      dates, the name and the indefinite flag, and an accepted percentage is
      at most 100 %. */
  function Validated(a: CreateAttrs, now: int): (r: Result<CreateAttrs, seq<FieldError>>)
    ensures r.Failure? ==> r.error != []
    ensures r.Success? ==>
              r.value.validFrom.Some? && r.value.validUntil.Some? && r.value.name.Some?
              && r.value.code == a.code && r.value.description == a.description
              && r.value.discountType == a.discountType && r.value.discountAmount == a.discountAmount
              && r.value.maxUses == a.maxUses && r.value.status == a.status
              && (a.discountType == PercentageType ==> a.discountAmount <= FullPercent)
  {
    if a.discountType == PercentageType && a.discountAmount > FullPercent then
      Failure([FieldError("discount_amount", Rejected(PercentTooHigh))])
    else if !Indefinite(a) && (a.validFrom.None? || a.validUntil.None?) then
      Failure([FieldError("valid_from", Rejected(BothDatesRequired)),
               FieldError("valid_until", Rejected(BothDatesRequired))])
    else if !Indefinite(a) && a.validUntil.value <= a.validFrom.value then
      Failure([FieldError("valid_until", Rejected(DatesInverted))])
    else
      Success(a.(validIndefinitely := Indefinite(a),
                 validFrom := Some(a.validFrom.GetOr(now)),
                 validUntil := Some(a.validUntil.GetOr(now + IndefiniteSpan)),
                 name := if a.name.Some? && a.name.value != [] then a.name else Some(a.code)))
  }

  /** `VoucherCreateSerializer.validate`, updating the attributes step by step. */
  method Validate(attrs: CreateAttrs, now: int) returns (r: Result<CreateAttrs, seq<FieldError>>)
    ensures r == Validated(attrs, now)
  {
    var a := attrs;
    if a.discountType == PercentageType {
      if a.discountAmount > FullPercent {
        return Failure([FieldError("discount_amount", Rejected(PercentTooHigh))]);
      }
    }
    var indefinite := a.validIndefinitely;
    if a.validFrom.None? && a.validUntil.None? {
      indefinite := true;
      a := a.(validIndefinitely := true);
    }
    if !indefinite {
      if a.validFrom.None? || a.validUntil.None? {
        return Failure([FieldError("valid_from", Rejected(BothDatesRequired)),
                        FieldError("valid_until", Rejected(BothDatesRequired))]);
      }
      if a.validUntil.value <= a.validFrom.value {
        return Failure([FieldError("valid_until", Rejected(DatesInverted))]);
      }
    } else {
      if a.validFrom.None? {
        a := a.(validFrom := Some(now));
      }
      if a.validUntil.None? {
        a := a.(validUntil := Some(now + IndefiniteSpan));
      }
    }
    if a.name.None? || a.name.value == [] {
      a := a.(name := Some(a.code));
    }
    return Success(a);
  }

  /** Percentages are refused above 100 %, so together with the positive check
      of the field stage an accepted percentage lies in (0, 100]. */
  lemma AcceptedPercentageInRange(vouchers: map<string, Voucher>, req: CreateRequest, now: int)
    requires CheckFields(vouchers, req).Success?
    requires CheckFields(vouchers, req).value.discountType == PercentageType
    ensures Validated(CheckFields(vouchers, req).value, now).Success? ==>
              0 < CheckFields(vouchers, req).value.discountAmount <= FullPercent
    ensures CheckFields(vouchers, req).value.discountAmount > FullPercent ==>
              Validated(CheckFields(vouchers, req).value, now).Failure?
  {
  }

  /** After `validate` both dates are set and the name is non-empty; a request
      that is not indefinite has a proper window; with no dates at all the
      window runs from now for 36500 days. */
  lemma ValidatedDates(a: CreateAttrs, now: int)
    requires a.code != []
    requires Validated(a, now).Success?
    ensures var b := Validated(a, now).value;
            b.validFrom.Some? && b.validUntil.Some? && b.name.Some? && b.name.value != []
            && b.validIndefinitely == Indefinite(a)
            && (!Indefinite(a) ==>
                  b.validFrom == a.validFrom && b.validUntil == a.validUntil && b.validFrom.value < b.validUntil.value)
            && (a.validFrom.None? && a.validUntil.None? ==>
                  b.validIndefinitely && b.validFrom == Some(now) && b.validUntil == Some(now + IndefiniteSpan))
            && (Indefinite(a) && a.validFrom.Some? ==> b.validFrom == a.validFrom)
            && (Indefinite(a) && a.validUntil.Some? ==> b.validUntil == a.validUntil)
  {
  }

  /** When the request is indefinite, supplied dates are kept without any
      ordering check: an end before the start is accepted as it is. */
  lemma IndefiniteKeepsInvertedDates(a: CreateAttrs, now: int)
    requires a.discountType == FixedAmountType && a.validIndefinitely
    requires a.validFrom == Some(100) && a.validUntil == Some(50)
    ensures Validated(a, now).Success?
    ensures Validated(a, now).value.validUntil.value < Validated(a, now).value.validFrom.value
  {
  }

  /** The name defaults to the code when it is absent. */
  lemma NameDefaultsToCode(a: CreateAttrs, now: int)
    requires Validated(a, now).Success?
    ensures a.name.None? ==> Validated(a, now).value.name == Some(a.code)
    ensures a.name.Some? && a.name.value != [] ==> Validated(a, now).value.name == a.name
  {
  }

  /** `create`: `max_uses` becomes `usage_limit`; FIXED_AMOUNT builds a fixed
      voucher with the amount, otherwise a percentage voucher whose percentage
      is the amount; the minimum purchase is 0.00 either way. */
  function BuildVoucher(a: CreateAttrs, id: nat, createdBy: Option<nat>, now: int): (v: Voucher)
    requires a.validFrom.Some? && a.validUntil.Some? && a.name.Some?
    requires a.maxUses.Some? ==> a.maxUses.value >= 0
    ensures v.code == a.code && v.id == id && v.usageCount == 0
    ensures v.usageLimit == (if a.maxUses.Some? then Some(a.maxUses.value as nat) else None)
    ensures a.discountType == FixedAmountType ==> v.kind == FixedAmount(a.discountAmount, 0)
    ensures a.discountType == PercentageType ==> v.kind == Percentage(a.discountAmount, None, 0)
    ensures !v.kind.FreeShipping? && !v.kind.Plain?
  {
    Voucher(
      id := id,
      code := a.code,
      name := a.name.value,
      description := a.description,
      status := a.status,
      validFrom := a.validFrom.value,
      validUntil := a.validUntil.value,
      usageLimit := if a.maxUses.Some? then Some(a.maxUses.value as nat) else None,
      usageCount := 0,
      createdBy := createdBy,
      createdAt := now,
      updatedAt := now,
      kind := if a.discountType == FixedAmountType then FixedAmount(a.discountAmount, 0)
              else Percentage(a.discountAmount, None, 0))
  }

  /** A voucher built from an accepted request satisfies the model's field
      bounds, so the discount lemmas hold for it. */
  lemma BuiltVoucherFieldsValid(vouchers: map<string, Voucher>, req: CreateRequest, id: nat,
                                createdBy: Option<nat>, now: int)
    requires CheckFields(vouchers, req).Success?
    requires Validated(CheckFields(vouchers, req).value, now).Success?
    ensures var a := Validated(CheckFields(vouchers, req).value, now).value;
            a.validFrom.Some? && a.validUntil.Some? && a.name.Some?
            && KindFieldsValid(BuildVoucher(a, id, createdBy, now).kind)
  {
    var a0 := CheckFields(vouchers, req).value;
    StripEmptyIffAllSpace(req.code.value);
    assert |a0.code| == |Strip(req.code.value)|;
    ValidatedDates(a0, now);
  }
}
