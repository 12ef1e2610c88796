/** The voucher serializers of serializers/voucher.py and the three variant
    serializers (serializers/percentage_discount.py, fixed_amount.py,
    free_shipping.py): code and date checks, the variant range checks, the
    read-only fields and the `usage_percentage` field. A request body is a
    `VoucherWrite` whose fields are absent (`None`) or present. */
module VoucherSerializers {
  import opened Wrappers
  import opened Text
  import opened Discounts
  import opened Vouchers
  import opened Forms

  /** Which serializer class handles a voucher. */
  datatype Variant = PercentageVariant | FixedVariant | FreeShippingVariant | BaseVariant

  function VariantOf(k: Kind): Variant {
    match k
    case Percentage(_, _, _) => PercentageVariant
    case FixedAmount(_, _) => FixedVariant
    case FreeShipping(_, _) => FreeShippingVariant
    case Plain => BaseVariant
  }

  // ---------------------------------------------------------------------------
  // Fields
  // ---------------------------------------------------------------------------

  /** `VoucherSerializer.Meta.fields`. */
  const BaseFields: seq<string> := [
    "id", "code", "name", "description", "status", "valid_from", "valid_until",
    "usage_limit", "usage_count", "usage_percentage", "created_by", "created_by_name",
    "created_at", "updated_at", "voucher_type", "is_valid", "is_expired"]

  /** `VoucherSerializer.Meta.read_only_fields`, shared by the variants. */
  const ReadOnlyFields: seq<string> := ["id", "usage_count", "created_at", "updated_at", "is_valid", "is_expired"]

  /** The fields each serializer exposes: the base ones plus its variant's own. */
  function ExposedFields(variant: Variant): (r: seq<string>)
    ensures |r| >= |BaseFields| && r[..|BaseFields|] == BaseFields
    ensures forall f :: f in ReadOnlyFields ==> f in r
  {
    match variant
    case PercentageVariant => BaseFields + ["discount_percentage", "max_discount_amount", "min_purchase_amount"]
    case FixedVariant => BaseFields + ["discount_amount", "min_purchase_amount"]
    case FreeShippingVariant => BaseFields + ["min_purchase_amount", "max_shipping_amount"]
    case BaseVariant => BaseFields
  }

  // ---------------------------------------------------------------------------
  // Field validators
  // ---------------------------------------------------------------------------

  const CodeTaken: string := "A voucher with this code already exists."

  /** `VoucherSerializer.validate_code`: upper-case the code; on create refuse
      a code in use, on update refuse it only if it differs from the
      instance's own code and is in use. */
  function ValidateCode(vouchers: map<string, Voucher>, value: string, instance: Option<Voucher>)
    : (r: Result<string, string>)
    ensures r.Success? ==> r.value == Upper(value)
    ensures instance.None? ==> (r.Success? <==> Upper(value) !in vouchers)
    ensures instance.Some? ==> (r.Success? <==> Upper(value) == instance.value.code || Upper(value) !in vouchers)
    ensures r.Failure? ==> r.error == CodeTaken
  {
    var code := Upper(value);
    if instance.None? && code in vouchers then Failure(CodeTaken)
    else if instance.Some? && code != instance.value.code && code in vouchers then Failure(CodeTaken)
    else Success(code)
  }

  /** Validating an accepted code again gives the same answer, and the code
      it yields contains no lower-case letter. */
  lemma ValidateCodeStable(vouchers: map<string, Voucher>, value: string, instance: Option<Voucher>)
    requires ValidateCode(vouchers, value, instance).Success?
    ensures ValidateCode(vouchers, ValidateCode(vouchers, value, instance).value, instance)
            == ValidateCode(vouchers, value, instance)
    ensures forall k :: 0 <= k < |value| ==> !IsLowerAscii(ValidateCode(vouchers, value, instance).value[k])
  {
    UpperIdempotent(value);
  }

  lemma ValidateCodeExamples(v: Voucher)
    requires v.code == "TEST123"
    ensures ValidateCode(map[], "test123", None) == Success("TEST123")
    ensures ValidateCode(map["TEST123" := v], "test123", None) == Failure(CodeTaken)
    ensures ValidateCode(map["TEST123" := v], "test123", Some(v)) == Success("TEST123")
  {
    var u := Upper("test123");
    assert u[0] == 'T' && u[1] == 'E' && u[2] == 'S' && u[3] == 'T';
    assert u[4] == '1' && u[5] == '2' && u[6] == '3';
    assert u == "TEST123";
  }

  /** `PercentageDiscountVoucherSerializer.validate_discount_percentage`:
      accepts (0, 100] percent, returning the value unchanged. */
  function ValidateDiscountPercentage(value: int): (r: Result<int, string>)
    ensures r.Success? <==> 0 < value <= FullPercent
    ensures r.Success? ==> r.value == value
  {
    if value <= 0 || value > FullPercent then Failure("Discount percentage must be between 0.01 and 100.")
    else Success(value)
  }

  /** `validate_max_discount_amount`: null or a positive amount. */
  function ValidateMaxDiscountAmount(value: Option<int>): (r: Result<Option<int>, string>)
    ensures r.Success? <==> (value.Some? ==> value.value > 0)
    ensures r.Success? ==> r.value == value
  {
    if value.Some? && value.value <= 0 then Failure("Maximum discount amount must be greater than 0.")
    else Success(value)
  }

  /** `FixedAmountVoucherSerializer.validate_discount_amount`: a positive amount. */
  function ValidateFixedDiscountAmount(value: int): (r: Result<int, string>)
    ensures r.Success? <==> value > 0
    ensures r.Success? ==> r.value == value
  {
    if value <= 0 then Failure("Discount amount must be greater than 0.") else Success(value)
  }

  /** `FreeShippingVoucherSerializer.validate_max_shipping_amount`: null or a positive amount. */
  function ValidateMaxShippingAmount(value: Option<int>): (r: Result<Option<int>, string>)
    ensures r.Success? <==> (value.Some? ==> value.value > 0)
    ensures r.Success? ==> r.value == value
  {
    if value.Some? && value.value <= 0 then Failure("Maximum shipping amount must be greater than 0.")
    else Success(value)
  }

  /** Values accepted by the serializer validators (with a minimum purchase of
      at least 0, the model's own bound) satisfy the model's field bounds, so
      the discount lemmas apply to them. */
  lemma AcceptedValuesSatisfyModelBounds(pct: int, cap: Option<int>, amount: int, shipCap: Option<int>, min: int)
    requires min >= 0
    ensures ValidateDiscountPercentage(pct).Success? && ValidateMaxDiscountAmount(cap).Success? ==>
              PercentageFieldsValid(pct, cap, min)
    ensures ValidateFixedDiscountAmount(amount).Success? ==> FixedFieldsValid(amount, min)
    ensures ValidateMaxShippingAmount(shipCap).Success? ==> FreeShippingFieldsValid(min, shipCap)
  {
  }

  // ---------------------------------------------------------------------------
  // Object-level date check
  // ---------------------------------------------------------------------------

  /** The value a date field has for the check: the request's, else the instance's. */
  function Effective(supplied: Option<int>, fromInstance: Option<int>): Option<int> {
    if supplied.Some? then supplied else fromInstance
  }

  const DatesInverted: string := "Valid until date must be after valid from date."

  /** `VoucherSerializer.validate`: the effective `valid_until` must be after
      the effective `valid_from` when both are known. */
  function ValidateDates(validFrom: Option<int>, validUntil: Option<int>, instance: Option<Voucher>)
    : (r: Result<(), FieldError>)
    ensures r.Failure? ==> r.error == FieldError("valid_until", Rejected(DatesInverted))
  {
    var from := Effective(validFrom, if instance.Some? then Some(instance.value.validFrom) else None);
    var until := Effective(validUntil, if instance.Some? then Some(instance.value.validUntil) else None);
    if from.Some? && until.Some? && until.value <= from.value
    then Failure(FieldError("valid_until", Rejected(DatesInverted)))
    else Success(())
  }

  /** The serializer's date check is the model's `clean` applied to the
      effective dates; in particular a partial update that supplies no date
      passes for an instance whose own dates are clean. */
  lemma ValidateDatesIsClean(validFrom: Option<int>, validUntil: Option<int>, instance: Option<Voucher>)
    ensures ValidateDates(validFrom, validUntil, instance).Success?
            == Clean(Effective(validFrom, if instance.Some? then Some(instance.value.validFrom) else None),
                     Effective(validUntil, if instance.Some? then Some(instance.value.validUntil) else None)).Success?
    ensures instance.Some? && validFrom.None? && validUntil.None?
            && Clean(Some(instance.value.validFrom), Some(instance.value.validUntil)).Success? ==>
              ValidateDates(validFrom, validUntil, instance).Success?
  {
  }

  // ---------------------------------------------------------------------------
  // usage_percentage
  // ---------------------------------------------------------------------------

  /** `get_usage_percentage` before its float rounding: null when the limit is
      null or 0 (so there is never a division by zero), else count / limit * 100. */
  function UsagePercentage(v: Voucher): (r: Option<real>)
    ensures r.None? <==> !LimitTruthy(v)
    ensures r.Some? ==> r.value >= 0.0
    ensures r.Some? && v.usageCount == v.usageLimit.value ==> r.value == 100.0
  {
    if LimitTruthy(v) then
      var limit := v.usageLimit.value as real;
      var ratio := (v.usageCount as real) / limit;
      assert ratio * limit == v.usageCount as real;
      assert v.usageCount == v.usageLimit.value ==> ratio == 1.0;
      Some(ratio * 100.0)
    else None
  }

  // ---------------------------------------------------------------------------
  // Whole request bodies
  // ---------------------------------------------------------------------------

  /** A create or update request body; `None` means the field is absent. An
      inner `Option` is a nullable field. `usage_count` may be sent but is
      read-only; `created_by` is writable and names a user by id. */
  datatype VoucherWrite = VoucherWrite(
    code: Option<string>,
    name: Option<string>,
    description: Option<string>,
    status: Option<VoucherStatus>,
    validFrom: Option<int>,
    validUntil: Option<int>,
    usageLimit: Option<Option<nat>>,
    usageCount: Option<nat>,
    discountPercentage: Option<int>,
    maxDiscountAmount: Option<Option<int>>,
    minPurchaseAmount: Option<int>,
    discountAmount: Option<int>,
    maxShippingAmount: Option<Option<int>>,
    createdBy: Option<Option<nat>>)

  /** Whether the model's required fields must be sent: on create, and on a
      full update (PUT, `partial=False`); only a partial update (PATCH) may
      leave them out. */
  predicate RequiredFields(instance: Option<Voucher>, partial: bool) {
    instance.None? || !partial
  }

  /** The errors of the `code` field: required unless the update is partial,
      non-blank, then `validate_code`. */
  function CodeErrors(vouchers: map<string, Voucher>, code: Option<string>, instance: Option<Voucher>,
                      required: bool): (e: seq<FieldError>)
    ensures e == [] <==>
              (code.None? ==> !required)
              && (code.Some? ==> !AllSpace(code.value) && ValidateCode(vouchers, Strip(code.value), instance).Success?)
    ensures code.None? && required ==> e == [FieldError("code", Required)]
  {
    if code.None? then (if required then [FieldError("code", Required)] else [])
    else match RequiredText(code)
         case Failure(p) => [FieldError("code", p)]
         case Success(c) =>
           match ValidateCode(vouchers, c, instance)
           case Failure(m) => [FieldError("code", Rejected(m))]
           case Success(_) => []
  }

  /** The errors of a text field that the model requires (here: `name`). */
  function TextErrors(field: string, value: Option<string>, required: bool): (e: seq<FieldError>)
    ensures e == [] <==> (value.None? ==> !required) && (value.Some? ==> !AllSpace(value.value))
    ensures value.None? && required ==> e == [FieldError(field, Required)]
  {
    if value.None? then (if required then [FieldError(field, Required)] else [])
    else ErrorsOf(field, RequiredText(value))
  }

  /** A field handled by a validator: when absent, an error only if the model
      requires it (`modelRequired`) and the request must carry required fields;
      when present, checked. */
  function CheckedErrors<T>(field: string, value: Option<T>, modelRequired: bool, required: bool,
                            check: T -> Result<T, string>): (e: seq<FieldError>)
    ensures e == [] <==> (value.None? ==> !(modelRequired && required)) && (value.Some? ==> check(value.value).Success?)
  {
    if value.None? then (if modelRequired && required then [FieldError(field, Required)] else [])
    else match check(value.value)
         case Failure(m) => [FieldError(field, Rejected(m))]
         case Success(_) => []
  }

  /** The variant fields of serializer `variant` are acceptable. */
  predicate VariantFieldsOk(w: VoucherWrite, variant: Variant, required: bool) {
    (variant != BaseVariant ==> (w.minPurchaseAmount.Some? ==> w.minPurchaseAmount.value >= 0))
    && (variant == PercentageVariant ==>
          (w.discountPercentage.None? ==> !required)
          && (w.discountPercentage.Some? ==> 0 < w.discountPercentage.value <= FullPercent)
          && (w.maxDiscountAmount.Some? && w.maxDiscountAmount.value.Some? ==> w.maxDiscountAmount.value.value > 0))
    && (variant == FixedVariant ==>
          (w.discountAmount.None? ==> !required)
          && (w.discountAmount.Some? ==> w.discountAmount.value > 0))
    && (variant == FreeShippingVariant ==>
          (w.maxShippingAmount.Some? && w.maxShippingAmount.value.Some? ==> w.maxShippingAmount.value.value > 0))
  }

  /** The errors of the variant fields: the model bound on the minimum
      purchase, and each variant serializer's own range checks. */
  function VariantErrors(w: VoucherWrite, variant: Variant, required: bool): (e: seq<FieldError>)
    ensures e == [] <==> VariantFieldsOk(w, variant, required)
  {
    var minErrors :=
      if variant == BaseVariant then [] else ErrorsOf("min_purchase_amount", OptionalAmount(w.minPurchaseAmount, 0));
    var own :=
      match variant
      case PercentageVariant =>
        CheckedErrors("discount_percentage", w.discountPercentage, true, required, ValidateDiscountPercentage)
        + CheckedErrors("max_discount_amount", w.maxDiscountAmount, false, required, ValidateMaxDiscountAmount)
      case FixedVariant =>
        CheckedErrors("discount_amount", w.discountAmount, true, required, ValidateFixedDiscountAmount)
      case FreeShippingVariant =>
        CheckedErrors("max_shipping_amount", w.maxShippingAmount, false, required, ValidateMaxShippingAmount)
      case BaseVariant => [];
    minErrors + own
  }

  /** The errors of `created_by`: a sent id must name a stored user; null
      is accepted. */
  function CreatorErrors(userIds: set<nat>, createdBy: Option<Option<nat>>): (e: seq<FieldError>)
    ensures e == [] <==> (createdBy.Some? && createdBy.value.Some? ==> createdBy.value.value in userIds)
  {
    if createdBy.Some? && createdBy.value.Some? && createdBy.value.value !in userIds
    then [FieldError("created_by", UnknownId)]
    else []
  }

  /** The field errors of a request for serializer `variant`, all collected:
      on create and on a full update the model's required fields must be
      present; present text fields may not be blank; the code goes through
      `validate_code`; a sent creator must exist; each variant field the
      serializer has goes through its range check. `userIds` are the ids of
      the users table. */
  function FieldErrors(vouchers: map<string, Voucher>, userIds: set<nat>, w: VoucherWrite, variant: Variant,
                       instance: Option<Voucher>, partial: bool): (e: seq<FieldError>)
    ensures var required := RequiredFields(instance, partial);
            e == [] <==>
              CodeErrors(vouchers, w.code, instance, required) == []
              && TextErrors("name", w.name, required) == []
              && (required ==> w.validUntil.Some?)
              && CreatorErrors(userIds, w.createdBy) == []
              && VariantFieldsOk(w, variant, required)
  {
    var required := RequiredFields(instance, partial);
    var untilErrors := if required && w.validUntil.None? then [FieldError("valid_until", Required)] else [];
    CodeErrors(vouchers, w.code, instance, required) + TextErrors("name", w.name, required) + untilErrors
    + CreatorErrors(userIds, w.createdBy) + VariantErrors(w, variant, required)
  }

  /** What the field stage leaves of a request: trimmed text, the upper-cased
      code, and only the fields serializer `variant` has (read-only
      `usage_count` is dropped). */
  function Cleaned(w: VoucherWrite, variant: Variant): VoucherWrite {
    VoucherWrite(
      code := if w.code.Some? then Some(Upper(Strip(w.code.value))) else None,
      name := if w.name.Some? then Some(Strip(w.name.value)) else None,
      description := if w.description.Some? then Some(Strip(w.description.value)) else None,
      status := w.status,
      validFrom := w.validFrom,
      validUntil := w.validUntil,
      usageLimit := w.usageLimit,
      usageCount := None,
      discountPercentage := if variant == PercentageVariant then w.discountPercentage else None,
      maxDiscountAmount := if variant == PercentageVariant then w.maxDiscountAmount else None,
      minPurchaseAmount := if variant != BaseVariant then w.minPurchaseAmount else None,
      discountAmount := if variant == FixedVariant then w.discountAmount else None,
      maxShippingAmount := if variant == FreeShippingVariant then w.maxShippingAmount else None,
      createdBy := w.createdBy)
  }

  /** `is_valid` of serializer `variant` on a request body (`instance` is the
      row being updated, `None` on create; `partial` tells PATCH from PUT):
      field errors first, and only without them the object-level date check. */
  function CheckWrite(vouchers: map<string, Voucher>, userIds: set<nat>, w: VoucherWrite, variant: Variant,
                      instance: Option<Voucher>, partial: bool): (r: Result<VoucherWrite, seq<FieldError>>)
    ensures r.Failure? ==> r.error != []
    ensures r.Success? ==> r.value == Cleaned(w, variant) && r.value.usageCount.None?
    ensures r.Success? && r.value.code.Some? ==>
              ValidateCode(vouchers, Strip(w.code.value), instance) == Success(r.value.code.value)
    ensures r.Success? ==> ValidateDates(w.validFrom, w.validUntil, instance).Success?
  {
    var errors := FieldErrors(vouchers, userIds, w, variant, instance, partial);
    if errors != [] then Failure(errors)
    else match ValidateDates(w.validFrom, w.validUntil, instance)
         case Failure(e) => Failure([e])
         case Success(_) => Success(Cleaned(w, variant))
  }

  /** A request accepted for create carries every field a new row needs, and
      its values satisfy the model's bounds; the code is new to the store. */
  lemma AcceptedCreateIsComplete(vouchers: map<string, Voucher>, userIds: set<nat>, w: VoucherWrite,
                                 variant: Variant, partial: bool)
    requires CheckWrite(vouchers, userIds, w, variant, None, partial).Success?
    ensures var c := CheckWrite(vouchers, userIds, w, variant, None, partial).value;
            c.code.Some? && c.code.value !in vouchers && c.name.Some? && c.name.value != [] && c.validUntil.Some?
            && (variant == PercentageVariant ==> c.discountPercentage.Some? && 0 < c.discountPercentage.value <= FullPercent
                                                  && (c.maxDiscountAmount.Some? && c.maxDiscountAmount.value.Some? ==> c.maxDiscountAmount.value.value > 0))
            && (variant == FixedVariant ==> c.discountAmount.Some? && c.discountAmount.value > 0)
            && (variant == FreeShippingVariant ==> (c.maxShippingAmount.Some? && c.maxShippingAmount.value.Some? ==> c.maxShippingAmount.value.value > 0))
            && (c.minPurchaseAmount.Some? ==> c.minPurchaseAmount.value >= 0)
  {
    assert FieldErrors(vouchers, userIds, w, variant, None, partial) == [];
    StripEmptyIffAllSpace(w.code.value);
    StripEmptyIffAllSpace(w.name.value);
  }

  // ---------------------------------------------------------------------------
  // Building and patching rows
  // ---------------------------------------------------------------------------

  /** The variant payload of a new row; absent optional fields take the model
      defaults (minimum purchase 0.00, no cap). */
  function NewKind(c: VoucherWrite, variant: Variant): Kind
    requires variant == PercentageVariant ==> c.discountPercentage.Some?
    requires variant == FixedVariant ==> c.discountAmount.Some?
  {
    var min := c.minPurchaseAmount.GetOr(0);
    match variant
    case PercentageVariant => Percentage(c.discountPercentage.value, c.maxDiscountAmount.GetOr(None), min)
    case FixedVariant => FixedAmount(c.discountAmount.value, min)
    case FreeShippingVariant => FreeShipping(min, c.maxShippingAmount.GetOr(None))
    case BaseVariant => Plain
  }

  /** The row `serializer.save(created_by=...)` inserts for an accepted create
      request: model defaults for absent fields (empty description, ACTIVE,
      `valid_from` = now, no limit, count 0). */
  function NewVoucher(c: VoucherWrite, variant: Variant, id: nat, createdBy: Option<nat>, now: int): (v: Voucher)
    requires c.code.Some? && c.name.Some? && c.validUntil.Some?
    requires variant == PercentageVariant ==> c.discountPercentage.Some?
    requires variant == FixedVariant ==> c.discountAmount.Some?
    ensures v.code == c.code.value && v.id == id && v.createdBy == createdBy
    ensures v.usageCount == 0 && VariantOf(v.kind) == variant
  {
    Voucher(
      id := id,
      code := c.code.value,
      name := c.name.value,
      description := c.description.GetOr(""),
      status := c.status.GetOr(Active),
      validFrom := c.validFrom.GetOr(now),
      validUntil := c.validUntil.value,
      usageLimit := c.usageLimit.GetOr(None),
      usageCount := 0,
      createdBy := createdBy,
      createdAt := now,
      updatedAt := now,
      kind := NewKind(c, variant))
  }

  /** A row with the variant fields of an accepted request applied. */
  function PatchedKind(k: Kind, c: VoucherWrite): Kind {
    match k
    case Percentage(pct, cap, min) =>
      Percentage(c.discountPercentage.GetOr(pct), c.maxDiscountAmount.GetOr(cap), c.minPurchaseAmount.GetOr(min))
    case FixedAmount(amount, min) =>
      FixedAmount(c.discountAmount.GetOr(amount), c.minPurchaseAmount.GetOr(min))
    case FreeShipping(min, cap) =>
      FreeShipping(c.minPurchaseAmount.GetOr(min), c.maxShippingAmount.GetOr(cap))
    case Plain => Plain
  }

  /** The row after `serializer.save()` on update: every present field
      replaces the stored one, all others are kept. `created_by` is among the
      writable fields, so an update can hand the row to another user or clear
      its creator. */
  function Patched(v: Voucher, c: VoucherWrite, now: int): (r: Voucher)
    ensures r.id == v.id && r.usageCount == v.usageCount
    ensures r.createdAt == v.createdAt && VariantOf(r.kind) == VariantOf(v.kind)
    ensures c.createdBy.None? ==> r.createdBy == v.createdBy
    ensures c.createdBy.Some? ==> r.createdBy == c.createdBy.value
  {
    v.(code := c.code.GetOr(v.code),
       name := c.name.GetOr(v.name),
       description := c.description.GetOr(v.description),
       status := c.status.GetOr(v.status),
       validFrom := c.validFrom.GetOr(v.validFrom),
       validUntil := c.validUntil.GetOr(v.validUntil),
       usageLimit := c.usageLimit.GetOr(v.usageLimit),
       createdBy := c.createdBy.GetOr(v.createdBy),
       updatedAt := now,
       kind := PatchedKind(v.kind, c))
  }

  /** `usage_count` is read-only: an accepted update that sends it leaves the
      count as it was, and every field the request does not send is kept. */
  lemma UpdateKeepsReadOnlyFields(vouchers: map<string, Voucher>, userIds: set<nat>, v: Voucher, w: VoucherWrite,
                                   partial: bool, now: int)
    requires CheckWrite(vouchers, userIds, w, VariantOf(v.kind), Some(v), partial).Success?
    ensures var r := Patched(v, CheckWrite(vouchers, userIds, w, VariantOf(v.kind), Some(v), partial).value, now);
            r.usageCount == v.usageCount && r.id == v.id
            && (w.code.None? ==> r.code == v.code)
            && (w.status.None? ==> r.status == v.status)
            && (w.usageLimit.None? ==> r.usageLimit == v.usageLimit)
            && (w.createdBy.None? ==> r.createdBy == v.createdBy)
            && (w.validFrom.None? && w.validUntil.None? ==> r.validFrom == v.validFrom && r.validUntil == v.validUntil)
  {
  }

  /** A full update (PUT) must carry the model's required fields: without
      `code`, `name` or `valid_until` it is refused, and the missing field is
      reported as required. */
  lemma FullUpdateRequiresFields(vouchers: map<string, Voucher>, userIds: set<nat>, v: Voucher, w: VoucherWrite)
    ensures var r := CheckWrite(vouchers, userIds, w, VariantOf(v.kind), Some(v), false);
            (w.code.None? || w.name.None? || w.validUntil.None? ==> r.Failure?)
            && (w.name.None? ==> r.Failure? && FieldError("name", Required) in r.error)
            && (w.code.None? ==> r.Failure? && FieldError("code", Required) in r.error)
  {
    var variant := VariantOf(v.kind);
    var e := FieldErrors(vouchers, userIds, w, variant, Some(v), false);
    var required := RequiredFields(Some(v), false);
    var untilErrors := if w.validUntil.None? then [FieldError("valid_until", Required)] else [];
    assert e == CodeErrors(vouchers, w.code, Some(v), required) + TextErrors("name", w.name, required) + untilErrors
                + CreatorErrors(userIds, w.createdBy) + VariantErrors(w, variant, required);
    if w.name.None? {
      assert TextErrors("name", w.name, required) == [FieldError("name", Required)];
      assert e[|CodeErrors(vouchers, w.code, Some(v), required)|] == FieldError("name", Required);
    }
    if w.code.None? {
      assert e[0] == FieldError("code", Required);
    }
  }

  /** The empty request body. */
  const EmptyWrite: VoucherWrite :=
    VoucherWrite(None, None, None, None, None, None, None, None, None, None, None, None, None, None)

  /** A partial update (PATCH) may leave every field out: the empty body is
      accepted for any row with a clean window, and is refused as a PUT. */
  lemma PartialUpdateMayOmitFields(vouchers: map<string, Voucher>, userIds: set<nat>, v: Voucher)
    requires Clean(Some(v.validFrom), Some(v.validUntil)).Success?
    ensures CheckWrite(vouchers, userIds, EmptyWrite, VariantOf(v.kind), Some(v), true).Success?
    ensures CheckWrite(vouchers, userIds, EmptyWrite, VariantOf(v.kind), Some(v), false).Failure?
  {
    ValidateDatesIsClean(None, None, Some(v));
    FullUpdateRequiresFields(vouchers, userIds, v, EmptyWrite);
  }

  /** `created_by` is writable on update: a sent id must name a stored user,
      and an accepted update hands the row to that user; null clears the
      creator. */
  lemma UpdateSetsCreator(vouchers: map<string, Voucher>, userIds: set<nat>, v: Voucher, w: VoucherWrite,
                          partial: bool, now: int)
    ensures w.createdBy.Some? && w.createdBy.value.Some? && w.createdBy.value.value !in userIds ==>
              CheckWrite(vouchers, userIds, w, VariantOf(v.kind), Some(v), partial).Failure?
    ensures CheckWrite(vouchers, userIds, w, VariantOf(v.kind), Some(v), partial).Success? && w.createdBy.Some? ==>
              Patched(v, CheckWrite(vouchers, userIds, w, VariantOf(v.kind), Some(v), partial).value, now).createdBy
                == w.createdBy.value
              && (w.createdBy.value.Some? ==> w.createdBy.value.value in userIds)
  {
  }

  /** An accepted update keeps a row within the model's bounds: valid variant
      fields stay valid and the stored window is clean afterwards. */
  lemma UpdateKeepsRowValid(vouchers: map<string, Voucher>, userIds: set<nat>, v: Voucher, w: VoucherWrite,
                             partial: bool, now: int)
    requires KindFieldsValid(v.kind)
    requires CheckWrite(vouchers, userIds, w, VariantOf(v.kind), Some(v), partial).Success?
    ensures var r := Patched(v, CheckWrite(vouchers, userIds, w, VariantOf(v.kind), Some(v), partial).value, now);
            KindFieldsValid(r.kind) && Clean(Some(r.validFrom), Some(r.validUntil)).Success?
  {
    var variant := VariantOf(v.kind);
    var c := CheckWrite(vouchers, userIds, w, variant, Some(v), partial).value;
    assert FieldErrors(vouchers, userIds, w, variant, Some(v), partial) == [];
    assert c == Cleaned(w, variant);
    PatchedKindValid(v.kind, w, RequiredFields(Some(v), partial));
    ValidateDatesIsClean(w.validFrom, w.validUntil, Some(v));
    var r := Patched(v, c, now);
    assert r.validFrom == Effective(w.validFrom, Some(v.validFrom)).value;
    assert r.validUntil == Effective(w.validUntil, Some(v.validUntil)).value;
  }

  /** Accepted variant fields applied to a valid payload keep it valid. */
  lemma PatchedKindValid(k: Kind, w: VoucherWrite, required: bool)
    requires KindFieldsValid(k) && VariantFieldsOk(w, VariantOf(k), required)
    ensures KindFieldsValid(PatchedKind(k, Cleaned(w, VariantOf(k))))
  {
  }
}
