/** The voucher checks of serializers/usage.py: looking a code up, the ordered
    classification of why a voucher cannot be used, the redemption request
    (`VoucherUsageCreateSerializer`) and the discount quote
    (`VoucherValidateSerializer`). The store is the map from code to row. */
module VoucherChecks {
  import opened Wrappers
  import opened Text
  import opened Discounts
  import opened Vouchers
  import opened Forms

  /** Why an existing voucher cannot be used, in the order it is checked. */
  datatype Rejection = NotActive(status: VoucherStatus) | HasExpired | LimitReached | NotValidForUse

  /** The failure chain that runs when `is_valid` is false: status first, then
      expiry, then a reached (non-zero) limit, else a generic refusal. */
  function Classify(v: Voucher, now: int): (r: Option<Rejection>)
    ensures r.None? <==> IsValid(v, now)
  {
    if IsValid(v, now) then None
    else if v.status != Active then Some(NotActive(v.status))
    else if IsExpired(v, now) then Some(HasExpired)
    else if LimitTruthy(v) && v.usageCount >= v.usageLimit.value then Some(LimitReached)
    else Some(NotValidForUse)
  }

  /** What each classification means in terms of the voucher alone. In
      particular the generic refusal is left for an active, unexpired voucher
      that is not yet valid or whose limit is 0. */
  lemma ClassifyExplained(v: Voucher, now: int)
    ensures Classify(v, now).Some? && Classify(v, now).value.NotActive? <==> v.status != Active
    ensures Classify(v, now).Some? && Classify(v, now).value.NotActive? ==> Classify(v, now).value.status == v.status
    ensures Classify(v, now) == Some(HasExpired) <==> v.status == Active && IsExpired(v, now)
    ensures Classify(v, now) == Some(LimitReached) <==>
              v.status == Active && !IsExpired(v, now) && LimitTruthy(v) && v.usageCount >= v.usageLimit.value
    ensures Classify(v, now) == Some(NotValidForUse) <==>
              v.status == Active && !IsExpired(v, now)
              && !(LimitTruthy(v) && v.usageCount >= v.usageLimit.value)
              && (now < v.validFrom || v.usageLimit == Some(0))
  {
  }

  const DoesNotExist: string := "Voucher with this code does not exist."

  /** The messages of `validate_voucher_code`. */
  function UsageMessage(r: Rejection): string {
    match r
    case NotActive(s) => "Voucher is not active. Current status: " + StatusLabel(s)
    case HasExpired => "Voucher has expired."
    case LimitReached => "Voucher usage limit has been reached."
    case NotValidForUse => "Voucher is not valid for use."
  }

  /** The messages of `VoucherValidateSerializer.validate` (keyed on `code`). */
  function QuoteMessage(r: Rejection): string {
    match r
    case NotActive(s) => "Voucher is " + Lower(StatusLabel(s)) + "."
    case HasExpired => "Voucher has expired."
    case LimitReached => "Voucher usage limit has been reached."
    case NotValidForUse => "Voucher is not valid."
  }

  lemma MessageExamples()
    ensures UsageMessage(NotActive(Used)) == "Voucher is not active. Current status: Used"
    ensures QuoteMessage(NotActive(Cancelled)) == "Voucher is cancelled."
    ensures QuoteMessage(NotActive(Expired)) == "Voucher is expired."
  {
  }

  /** `VoucherUsageCreateSerializer.validate_voucher_code`: the code is looked
      up upper-cased; the value itself is returned unchanged. */
  function ValidateVoucherCode(vouchers: map<string, Voucher>, value: string, now: int): (r: Result<string, string>)
    ensures r.Success? <==> Upper(value) in vouchers && IsValid(vouchers[Upper(value)], now)
    ensures r.Success? ==> r.value == value
    ensures Upper(value) !in vouchers ==> r == Failure(DoesNotExist)
    ensures Upper(value) in vouchers && !IsValid(vouchers[Upper(value)], now) ==>
              r == Failure(UsageMessage(Classify(vouchers[Upper(value)], now).value))
  {
    var key := Upper(value);
    if key !in vouchers then Failure(DoesNotExist)
    else
      match Classify(vouchers[key], now)
      case Some(why) => Failure(UsageMessage(why))
      case None => Success(value)
  }

  /** The lookup is case-insensitive: a code and its upper-cased form get the
      same verdict. */
  lemma ValidateVoucherCodeIgnoresCase(vouchers: map<string, Voucher>, value: string, now: int)
    ensures ValidateVoucherCode(vouchers, Upper(value), now).Success?
            == ValidateVoucherCode(vouchers, value, now).Success?
  {
    UpperIdempotent(value);
  }

  datatype UsageAmountField = PurchaseAmountField | DiscountAppliedField

  /** `VoucherUsageSerializer.validate_purchase_amount` and
      `validate_discount_applied`: a negative amount is refused. */
  function ValidateUsageAmount(field: UsageAmountField, value: int): (r: Result<int, string>)
    ensures r.Success? <==> value >= 0
    ensures r.Success? ==> r.value == value
  {
    if value < 0 then
      Failure(if field == PurchaseAmountField
              then "Purchase amount must be greater than or equal to 0."
              else "Discount applied must be greater than or equal to 0.")
    else Success(value)
  }

  /** A validated redemption request: the code as sent (trimmed) and the two
      amounts as supplied. */
  datatype Redemption = Redemption(voucherCode: string, purchaseAmount: int, discountApplied: int)

  /** `VoucherUsageCreateSerializer.is_valid`: field checks of the three
      fields (the code through `validate_voucher_code`, the amounts bounded
      below by 0), all collected. */
  function CheckRedemption(vouchers: map<string, Voucher>, code: Option<string>,
                           purchase: Option<int>, discount: Option<int>, now: int)
    : (r: Result<Redemption, seq<FieldError>>)
    ensures r.Success? <==>
              code.Some? && !AllSpace(code.value)
              && Upper(Strip(code.value)) in vouchers && IsValid(vouchers[Upper(Strip(code.value))], now)
              && purchase.Some? && purchase.value >= 0
              && discount.Some? && discount.value >= 0
    ensures r.Success? ==> r.value == Redemption(Strip(code.value), purchase.value, discount.value)
    ensures r.Failure? ==> r.error != []
  {
    var c := RequiredText(code);
    var cv := if c.Success? then
                match ValidateVoucherCode(vouchers, c.value, now)
                case Success(v) => Success(v)
                case Failure(m) => Failure(Rejected(m))
              else Failure(c.error);
    var p := RequiredAmount(purchase, 0);
    var d := RequiredAmount(discount, 0);
    var errors := ErrorsOf("voucher_code", cv) + ErrorsOf("purchase_amount", p) + ErrorsOf("discount_applied", d);
    if errors == [] then Success(Redemption(cv.value, p.value, d.value)) else Failure(errors)
  }

  /** The discount `VoucherValidateSerializer.validate` quotes for a voucher
      kind. It gates each variant on the minimum itself before calling the
      variant's `calculate_discount`; that outer gate is redundant, and a base
      voucher quotes 0. */
  function QuotedDiscount(k: Kind, purchase: int, shipping: int): (r: int)
    ensures k.Percentage? ==> r == PercentageDiscount(k.discountPercentage, k.maxDiscountAmount, k.minPurchaseAmount, purchase)
    ensures k.FixedAmount? ==> r == FixedDiscount(k.discountAmount, k.minPurchaseAmount, purchase)
    ensures k.FreeShipping? ==> r == FreeShippingDiscount(k.minPurchaseAmount, k.maxShippingAmount, purchase, shipping)
    ensures k.Plain? ==> r == 0
  {
    match k
    case Percentage(pct, cap, min) =>
      if purchase >= min then PercentageDiscount(pct, cap, min, purchase) else 0
    case FixedAmount(amount, min) =>
      if purchase >= min then FixedDiscount(amount, min, purchase) else 0
    case FreeShipping(min, cap) =>
      if purchase >= min then FreeShippingDiscount(min, cap, purchase, shipping) else 0
    case Plain => 0
  }

  /** For a voucher whose fields satisfy the model validators, the quoted
      discount is never negative, never more than the purchase for an order
      discount and never more than the shipping cost for free shipping. */
  lemma QuotedDiscountBounds(k: Kind, purchase: int, shipping: int)
    requires KindFieldsValid(k) && purchase >= 0 && shipping >= 0
    ensures 0 <= QuotedDiscount(k, purchase, shipping)
    ensures !k.FreeShipping? ==> QuotedDiscount(k, purchase, shipping) <= purchase
    ensures k.FreeShipping? ==> QuotedDiscount(k, purchase, shipping) <= shipping
  {
    if k.Percentage? {
      PercentageWithinPurchase(k.discountPercentage, k.maxDiscountAmount, k.minPurchaseAmount, purchase);
    } else if k.FreeShipping? {
      if purchase >= k.minPurchaseAmount {
        FreeShippingPurchaseOnlyGates(k.minPurchaseAmount, k.maxShippingAmount, purchase, purchase, shipping);
      }
    }
  }

  /** What a successful quote returns: the stored voucher, untouched, and the
      calculated discount. */
  datatype Quote = Quote(voucher: Voucher, calculatedDiscount: int)

  /** The field stage of the quote request is passed. */
  predicate QuoteFieldsOk(code: Option<string>, purchase: Option<int>, shipping: Option<int>) {
    code.Some? && !AllSpace(code.value)
    && (purchase.Some? ==> purchase.value >= 0)
    && (shipping.Some? ==> shipping.value >= 0)
  }

  /** `VoucherValidateSerializer.is_valid`: `code` required and non-blank, the
      two amounts optional with minimum 0; then the upper-cased lookup, the
      same failure order as redemption with messages keyed on `code`, and the
      discount with both amounts defaulting to 0. */
  function CheckQuote(vouchers: map<string, Voucher>, code: Option<string>,
                      purchase: Option<int>, shipping: Option<int>, now: int)
    : (r: Result<Quote, seq<FieldError>>)
    ensures r.Success? <==>
              QuoteFieldsOk(code, purchase, shipping)
              && Upper(Strip(code.value)) in vouchers && IsValid(vouchers[Upper(Strip(code.value))], now)
    ensures r.Success? ==>
              r.value.voucher == vouchers[Upper(Strip(code.value))]
              && r.value.calculatedDiscount
                 == QuotedDiscount(r.value.voucher.kind, purchase.GetOr(0), shipping.GetOr(0))
    ensures QuoteFieldsOk(code, purchase, shipping) && Upper(Strip(code.value)) !in vouchers ==>
              r == Failure([FieldError("code", Rejected(DoesNotExist))])
    ensures QuoteFieldsOk(code, purchase, shipping) && Upper(Strip(code.value)) in vouchers
            && !IsValid(vouchers[Upper(Strip(code.value))], now) ==>
              r == Failure([FieldError("code", Rejected(QuoteMessage(Classify(vouchers[Upper(Strip(code.value))], now).value)))])
    ensures r.Failure? ==> r.error != []
  {
    var c := RequiredText(code);
    var p := OptionalAmount(purchase, 0);
    var s := OptionalAmount(shipping, 0);
    var errors := ErrorsOf("code", c) + ErrorsOf("purchase_amount", p) + ErrorsOf("shipping_amount", s);
    if errors != [] then Failure(errors)
    else
      var key := Upper(c.value);
      if key !in vouchers then Failure([FieldError("code", Rejected(DoesNotExist))])
      else
        var v := vouchers[key];
        match Classify(v, now)
        case Some(why) => Failure([FieldError("code", Rejected(QuoteMessage(why)))])
        case None => Success(Quote(v, QuotedDiscount(v.kind, purchase.GetOr(0), shipping.GetOr(0))))
  }

  /** Quoting and redeeming agree on which codes are usable: once the fields
      are well formed, a quote succeeds exactly when `validate_voucher_code`
      accepts the same code. */
  lemma QuoteAgreesWithRedemption(vouchers: map<string, Voucher>, code: Option<string>,
                                  purchase: Option<int>, shipping: Option<int>, now: int)
    requires QuoteFieldsOk(code, purchase, shipping)
    ensures CheckQuote(vouchers, code, purchase, shipping, now).Success?
            == ValidateVoucherCode(vouchers, Strip(code.value), now).Success?
  {
  }
}
