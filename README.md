# Vouchers and users: a verified model of the REST backend

This project models the server side of a Django REST Framework application
that manages users and polymorphic discount vouchers. The model covers four
parts:

- **The voucher engine** (`Money`, `Discounts`, `Vouchers`, `VoucherChecks`).
  - A voucher is a row with a code, a status (ACTIVE, EXPIRED, USED,
    CANCELLED), a validity window, an optional usage limit and a usage count.
  - Each voucher carries one variant payload: a percentage discount, a fixed
    amount or free shipping (`Plain` is a row of the base class).
  - Modelled here: `is_valid`, `is_expired`, `clean` and `increment_usage`;
    the three `calculate_discount` methods; the ordered classification of why
    a voucher cannot be used; the redemption request and the discount quote.
- **Voucher input validation** (`VoucherSerializers`, `VoucherCreate`).
  - The generic and per-variant serializers: code upper-casing and
    uniqueness, date ordering, variant range checks and read-only fields.
  - The unified create request: `discount_type` selects a fixed-amount or
    percentage voucher, and a request without dates is "valid indefinitely"
    for 36500 days.
- **Access decisions and endpoints** (`Access`, `VoucherViews`, `UserViews`,
  `Auth`, `Errors`).
  - Who sees which vouchers, users and usage records.
  - The permission tables, with 401 for anonymous and 403 for signed-in
    requesters, and the self-or-admin checks.
  - The state changes of create, update, `use_voucher`, `change_password`,
    `activate` and `deactivate`.
  - Login, register and logout, and the error envelope.
- **User accounts** (`Users`, `UserSerializers`, `UserStore`).
  - Full and short names and email normalisation.
  - `create_user` and `create_superuser` with their defaults and flag checks.
  - Registration with password confirmation, the password change and the
    profile update.

Representation:

- Money is an integer number of cents, since every amount is a `Decimal`
  with two places. A percentage is an integer number of hundredths of a
  percent, so `FullPercent = 10000` is 100 %.
- `quantize` uses the default decimal context, which rounds half to even;
  `Money.RoundHalfEven` models it exactly.
- Python truthiness is written out where the code relies on it. A
  `usage_limit`, `max_discount_amount` or `max_shipping_amount` of 0 counts as
  "not set" in `if` tests, but not in `is_valid`'s `is None`.
- The database is two objects whose fields the methods reassign:
  - `VoucherStore.VoucherDb` holds vouchers keyed by upper-cased code, usage
    records in insertion order, and the next id;
  - `UserStore.UserDb` holds users keyed by id.
  - Their `Valid()` invariants say that each `usage_count` equals the number
    of records for that voucher, that ids are distinct and that emails are
    unique.
- The clock is an integer parameter `now` in seconds.
- Three things are parameters rather than code:
  - Django's `EmailValidator`, as `validEmail`;
  - `validate_password`, as `passwordOk`;
  - the token blacklist's verdict on a refresh token, as `blacklist`.
- A request body is a datatype whose fields are `Option`s: `None` is an
  absent field. A serializer's field stage collects the errors of every field
  before `validate` runs, as DRF does.

Behaviour worth knowing:

- A voucher's status can be written through the update serializers, so no
  status is terminal. No code path ever sets EXPIRED.
- A voucher created through the unified create request as "valid
  indefinitely" keeps supplied dates unchecked, so `valid_from < valid_until`
  does not always hold (`VoucherCreate.IndefiniteKeepsInvertedDates`).
- `use_voucher` answers 201 with the new usage record, or 400. Login answers
  400 when a credential is missing and 401 for wrong credentials.
- Registration is open to anonymous requesters and `role` and `status` are
  writable fields of the registration serializer, so a registrant who sends
  role ADMIN becomes an admin (`Auth.RegistrantChoosesRole`, `Auth.Register`).
- `created_by` is a writable field of the voucher serializers. An update
  by an admin or a manager can hand a voucher to another user or clear its
  creator, which changes who may read its usage history
  (`VoucherSerializers.UpdateSetsCreator`).
- A PUT is a full update: it is refused without `code`, `name`,
  `valid_until` or the variant's required amount, while a PATCH may leave
  out any field (`VoucherSerializers.FullUpdateRequiresFields`,
  `VoucherSerializers.PartialUpdateMayOmitFields`).
- The serializers check email uniqueness on the email as typed, but
  `create_user` stores it normalised. A registration that differs from a
  stored email only in the case of its domain passes the serializer, then
  fails in the insert on the unique column; the model reports that as 500
  (`UserStore.DomainCaseSlipsPastSerializer`, `Auth.Register`).

backend/apps/vouchers/views/voucher_viewset.py is not part of this model. The
`VoucherViewSet` modelled here is the one in backend/apps/vouchers/views.py.

## Model

| member | source | states |
|---|---|---|
| Money.RoundHalfEven | backend/apps/vouchers/models/percentage_discount.py:71 | the result is within half a unit of n / d, and on an exact tie it is even |
| Money.RoundHalfEvenUnique | backend/apps/vouchers/models/percentage_discount.py:71 | any integer within half a unit of n / d, with ties broken to even, is the result of `RoundHalfEven`: the two postconditions define it |
| Money.RoundHalfEvenExact | backend/apps/vouchers/models/percentage_discount.py:71 | an exact multiple of d rounds to its quotient |
| Money.RoundHalfEvenMonotone | backend/apps/vouchers/models/percentage_discount.py:71 | rounding preserves order |
| Discounts.PercentageDiscount | backend/apps/vouchers/models/percentage_discount.py:63-71 | below the minimum purchase the discount is 0; from the minimum on, it is within half a cent of min(purchase × percentage / 100, cap) |
| Discounts.PercentageDiscountIsNearestCent | backend/apps/vouchers/models/percentage_discount.py:63-71 | from the minimum upwards (inclusive), the result is the unique nearest cent to the capped exact value, ties to even |
| Discounts.PercentageCapCommutesWithRounding | backend/apps/vouchers/models/percentage_discount.py:66-71 | capping and then quantizing, as the code does, equals quantizing and then capping |
| Discounts.PercentageRespectsCap | backend/apps/vouchers/models/percentage_discount.py:68-69 | with a cap, the discount never exceeds it, and it equals the cap once the uncapped value reaches it |
| Discounts.PercentageWithinPurchase | backend/apps/vouchers/models/percentage_discount.py:28 | for a percentage within the field bounds (at most 100) and a purchase ≥ 0, 0 ≤ discount ≤ purchase |
| Discounts.PercentageExamples | backend/apps/vouchers/tests/test_models/test_percentage.py:54-140 | 9.99 at 10 % gives 1.00; 99.99 at 7.5 % gives 7.50; the 20.00 cap holds; the minimum is inclusive; below the minimum gives 0 |
| Discounts.FixedDiscount | backend/apps/vouchers/models/fixed_amount.py:53-56 | below the minimum the discount is 0; otherwise it is the smaller of the amount and the purchase |
| Discounts.FixedDiscountPositive | backend/apps/vouchers/models/fixed_amount.py:27 | an amount ≥ 0.01 gives a positive discount on every positive purchase that reaches the minimum |
| Discounts.FixedExamples | backend/apps/vouchers/tests/test_models/test_fixed.py:54-99 | 50 off a 30 purchase gives 30; with minimum 100, purchases of 99.99, 100 and 150 give 0, 20 and 20 |
| Discounts.FreeShippingDiscount | backend/apps/vouchers/models/free_shipping.py:56-62 | below the minimum the discount is 0; without a (non-zero) cap it is the shipping cost; with one, the smaller of the two |
| Discounts.FreeShippingPurchaseOnlyGates | backend/apps/vouchers/models/free_shipping.py:56-62 | the purchase matters only through the minimum gate, and the result lies between 0 and the shipping cost |
| Discounts.FreeShippingExamples | backend/apps/vouchers/tests/test_models/test_free_shipping.py:128-165 | the test vectors: the cap applies, a cap above the cost has no effect, zero shipping gives 0, and the minimum gates |
| Vouchers.ExpiredNeverValid | backend/apps/vouchers/models/base.py:117-127 | an expired voucher is never valid; a valid one is ACTIVE and below a set limit |
| Vouchers.Clean | backend/apps/vouchers/models/base.py:100-107 | the only failure is the date-order message |
| Vouchers.CleanAcceptsProperWindows | backend/apps/vouchers/models/base.py:100-107 | with a date missing `clean` accepts; with both set it accepts exactly when the window holds two distinct instants |
| Vouchers.IncrementFrame | backend/apps/vouchers/models/base.py:135-138 | `increment_usage` adds exactly one use and changes nothing but the count, the status and `updated_at` |
| Vouchers.IncrementMarksUsed | backend/apps/vouchers/models/base.py:136-137 | the status becomes USED exactly when the limit is set, non-zero and reached by the new count; otherwise it is unchanged |
| Vouchers.IncrementReachesLimit | backend/apps/vouchers/models/base.py:117-137 | from count < limit, one increment never overshoots; the count reaches the limit iff the status becomes USED, and then the voucher is never valid |
| Vouchers.ZeroLimitNeverValid | backend/apps/vouchers/models/base.py:121-136 | a limit of 0 makes the voucher never valid, yet an increment never marks it USED |
| Vouchers.RedeemAllWithinLimit | backend/apps/vouchers/serializers/usage.py:89-118 | over any sequence of redemption attempts, each gated by `is_valid`, the count grows by the number that succeed and never passes a set limit |
| VoucherChecks.Classify | backend/apps/vouchers/serializers/usage.py:89-99 | there is a reason for refusal exactly when the voucher is not valid |
| VoucherChecks.ClassifyExplained | backend/apps/vouchers/serializers/usage.py:89-99 | the order of the checks: not active, then expired, then a reached non-zero limit, else the generic refusal (not yet started, or limit 0) |
| VoucherChecks.MessageExamples | backend/apps/vouchers/serializers/usage.py:89-172 | the two endpoints word a status refusal differently ("Current status: Used" and "Voucher is cancelled.") |
| VoucherChecks.ValidateVoucherCode | backend/apps/vouchers/serializers/usage.py:80-101 | success iff the upper-cased code exists and that voucher is valid; an unknown code gets "does not exist"; otherwise the message of its classification; the value itself is returned |
| VoucherChecks.ValidateVoucherCodeIgnoresCase | backend/apps/vouchers/serializers/usage.py:85 | a code and its upper-cased form get the same verdict |
| VoucherChecks.ValidateUsageAmount | backend/apps/vouchers/serializers/usage.py:45-63 | an amount is accepted, unchanged, iff it is ≥ 0 |
| VoucherChecks.CheckRedemption | backend/apps/vouchers/serializers/usage.py:66-101 | a redemption request is accepted iff the code is present, non-blank and names a valid voucher, and both amounts are present and ≥ 0; the amounts are kept as supplied |
| VoucherChecks.QuotedDiscount | backend/apps/vouchers/serializers/usage.py:174-184 | the quote is the variant's own `calculate_discount` (the outer minimum gate changes nothing); a base voucher quotes 0 |
| VoucherChecks.QuotedDiscountBounds | backend/apps/vouchers/serializers/usage.py:174-184 | for a voucher within its field bounds the quote is ≥ 0, at most the purchase for order discounts and at most the shipping for free shipping |
| VoucherChecks.CheckQuote | backend/apps/vouchers/serializers/usage.py:141-189 | the quote succeeds iff the fields are well formed and the upper-cased code names a valid voucher; it returns that voucher unchanged and its discount with absent amounts as 0; refusals are keyed on `code` in the same order as redemption |
| VoucherChecks.QuoteAgreesWithRedemption | backend/apps/vouchers/serializers/usage.py:84-99 | with well-formed fields, a quote succeeds exactly when `validate_voucher_code` accepts the same code |
| VoucherSerializers.ExposedFields | backend/apps/vouchers/serializers/voucher.py:27-53 | every serializer exposes the base fields first and includes all read-only ones |
| VoucherSerializers.ValidateCode | backend/apps/vouchers/serializers/voucher.py:86-102 | the result is the upper-cased code; on create it is refused iff in use; on update iff it differs from the instance's code and is in use |
| VoucherSerializers.ValidateCodeStable | backend/apps/vouchers/serializers/voucher.py:91-102 | validating an accepted code again gives the same answer, and the code has no lower-case letter |
| VoucherSerializers.ValidateCodeExamples | backend/apps/vouchers/tests/test_serializers/test_voucher_serializers.py:106-124 | 'test123' becomes 'TEST123'; it is refused when stored on create and accepted on the instance's own update |
| VoucherSerializers.ValidateDiscountPercentage | backend/apps/vouchers/serializers/percentage_discount.py:26-34 | accepted, unchanged, iff 0 < percentage ≤ 100 |
| VoucherSerializers.ValidateMaxDiscountAmount | backend/apps/vouchers/serializers/percentage_discount.py:36-44 | accepted, unchanged, iff null or positive |
| VoucherSerializers.ValidateFixedDiscountAmount | backend/apps/vouchers/serializers/fixed_amount.py:25-33 | accepted, unchanged, iff positive |
| VoucherSerializers.ValidateMaxShippingAmount | backend/apps/vouchers/serializers/free_shipping.py:25-33 | accepted, unchanged, iff null or positive |
| VoucherSerializers.AcceptedValuesSatisfyModelBounds | backend/apps/vouchers/models/percentage_discount.py:28-45 | values the serializer validators accept satisfy the model's field bounds, so the discount properties apply to them |
| VoucherSerializers.ValidateDates | backend/apps/vouchers/serializers/voucher.py:72-84 | the only failure is the date-order message on `valid_until` |
| VoucherSerializers.ValidateDatesIsClean | backend/apps/vouchers/serializers/voucher.py:76-82 | the check is `clean` applied to the effective dates (request, else instance); an update that sends no date passes for a clean instance |
| VoucherSerializers.UsagePercentage | backend/apps/vouchers/serializers/voucher.py:64-70 | null exactly when the limit is null or 0; otherwise ≥ 0, and 100 when the count equals the limit |
| VoucherSerializers.CodeErrors | backend/apps/vouchers/serializers/voucher.py:86-102 | no error iff the code is present when required (create and PUT), non-blank when present, and accepted by `validate_code`; a missing required code is reported as required |
| VoucherSerializers.VariantErrors | backend/apps/vouchers/serializers/percentage_discount.py:13-44 | no error iff the variant's own fields pass their range checks, and its required amount is present on create and on a PUT |
| VoucherSerializers.CreatorErrors | backend/apps/vouchers/serializers/voucher.py:38-56 | no error iff a sent, non-null `created_by` names a stored user; an unknown id is an error on `created_by` |
| VoucherSerializers.FieldErrors | backend/apps/vouchers/serializers/voucher.py:25-102 | no error iff the code, the name and `valid_until` (required on create and on a PUT, optional on a PATCH), a sent `created_by` (an existing user) and the variant fields are all acceptable |
| VoucherSerializers.CheckWrite | backend/apps/vouchers/serializers/voucher.py:72-102 | an accepted body is the cleaned one, without `usage_count`, with the validated code, and has passed the date check; a refusal lists at least one error |
| VoucherSerializers.AcceptedCreateIsComplete | backend/apps/vouchers/serializers/fixed_amount.py:13-33 | a create body that is accepted has every field a new row needs, a new code, and values within the variant's bounds |
| VoucherSerializers.NewVoucher | backend/apps/vouchers/views.py:135 | the inserted row has the validated code, the requester as creator, count 0 and the serializer's variant |
| VoucherSerializers.Patched | backend/apps/vouchers/views.py:146 | a saved update keeps the id, the count, the creation time and the variant; `created_by` is kept unless sent, and then becomes the sent user or null |
| VoucherSerializers.UpdateKeepsReadOnlyFields | backend/apps/vouchers/tests/test_serializers/test_voucher_serializers.py:168-185 | an accepted update that sends `usage_count` leaves it unchanged, and every field not sent is kept |
| VoucherSerializers.FullUpdateRequiresFields | backend/apps/vouchers/models/base.py:34-66 | a PUT without `code`, `name` or `valid_until` is refused, with the missing code or name reported as required |
| VoucherSerializers.PartialUpdateMayOmitFields | backend/apps/vouchers/serializers/voucher.py:72-84 | an empty PATCH body is accepted for a row with a clean window, and the same body is refused as a PUT |
| VoucherSerializers.UpdateSetsCreator | backend/apps/vouchers/serializers/voucher.py:38-56 | a sent `created_by` naming no user is refused; an accepted update sets the creator to the sent user or null |
| VoucherSerializers.UpdateKeepsRowValid | backend/apps/vouchers/serializers/voucher.py:72-84 | an accepted update keeps valid variant fields valid and leaves a clean window |
| VoucherCreate.ParseDiscountType | backend/apps/vouchers/serializers/voucher_create.py:38-44 | only FIXED_AMOUNT and PERCENTAGE are choices, so free shipping cannot be created this way |
| VoucherCreate.ValidateCode | backend/apps/vouchers/serializers/voucher_create.py:77-87 | the code is upper-cased and refused iff a fixed-amount or percentage voucher holds it |
| VoucherCreate.ValidateDiscountAmount | backend/apps/vouchers/serializers/voucher_create.py:89-93 | accepted, unchanged, iff positive |
| VoucherCreate.CheckFields | backend/apps/vouchers/serializers/voucher_create.py:23-93 | an accepted body has a non-blank code that passed `validate_code`, a positive amount, a valid type, `max_uses` ≥ 1 if given, and the defaults for the rest |
| VoucherCreate.Validate | backend/apps/vouchers/serializers/voucher_create.py:95-140 | the step-by-step `validate` computes the case-by-case decision `Validated` |
| VoucherCreate.AcceptedPercentageInRange | backend/apps/vouchers/serializers/voucher_create.py:89-108 | an accepted percentage lies in (0, 100], and one above 100 is refused |
| VoucherCreate.ValidatedDates | backend/apps/vouchers/serializers/voucher_create.py:110-138 | after `validate` both dates and the name are set; without dates the window is now to now + 36500 days; a non-indefinite request keeps its proper window |
| VoucherCreate.IndefiniteKeepsInvertedDates | backend/apps/vouchers/serializers/voucher_create.py:128-134 | an indefinite request keeps supplied dates without an order check, even an end before the start |
| VoucherCreate.NameDefaultsToCode | backend/apps/vouchers/serializers/voucher_create.py:136-138 | an absent name becomes the code; a non-empty one is kept |
| VoucherCreate.BuildVoucher | backend/apps/vouchers/serializers/voucher_create.py:142-168 | `max_uses` becomes the usage limit; FIXED_AMOUNT builds a fixed voucher with the amount and PERCENTAGE a percentage voucher with it; minimum 0; never free shipping |
| VoucherCreate.BuiltVoucherFieldsValid | backend/apps/vouchers/serializers/voucher_create.py:146-166 | a voucher built from an accepted request satisfies its model's field bounds |
| VoucherStore.CountForUnused | backend/apps/vouchers/serializers/usage.py:111-115 | a voucher id no usage record refers to has a count of 0 |
| VoucherStore.VoucherDb.IncrementUsage | backend/apps/vouchers/models/base.py:129-138 | the stored row becomes `Incremented` of itself; nothing else changes |
| VoucherStore.VoucherDb.RecordUsage | backend/apps/vouchers/serializers/usage.py:103-120 | appends exactly one record with the requester and the amounts as supplied, then increments that voucher once; counts stay equal to record counts |
| VoucherStore.VoucherDb.Redeem | backend/apps/vouchers/serializers/usage.py:66-120 | fails iff the redemption check fails, with its errors and no change; on success the upper-cased code named a valid voucher, one record is added and that voucher incremented; no voucher passes its limit |
| VoucherStore.VoucherDb.CreateFromRequest | backend/apps/vouchers/serializers/voucher_create.py:95-168 | field errors, then `validate` errors, then a collision on the table's unique code (a code held by free-shipping or base vouchers) refuse with no change; otherwise the built voucher is inserted |
| VoucherStore.FreeShippingCodePassesCreateCheck | backend/apps/vouchers/serializers/voucher_create.py:82-85 | a code held by a free-shipping voucher passes the create request's code check |
| VoucherViews.VisibleVouchers | backend/apps/vouchers/views.py:54-73 | the visible rows are exactly the stored rows the requester may see, unchanged |
| VoucherViews.VisibilityRules | backend/apps/vouchers/views.py:63-73 | admins and managers see everything, other signed-in users exactly the ACTIVE rows, anonymous requesters nothing |
| VoucherViews.GetObject | backend/apps/vouchers/views.py:189 | a row is found iff it exists and is visible; otherwise 404 |
| VoucherViews.RegularUserCannotSeeInactive | backend/apps/vouchers/tests/test_views/test_voucher_viewsets.py:112-122 | for a regular user, a non-ACTIVE voucher gives the same 404 as a missing one |
| VoucherViews.PermissionsFor | backend/apps/vouchers/views.py:110-124 | destroy needs `IsAdminUser`; every other action authentication |
| VoucherViews.PermissionTable | backend/apps/vouchers/views/fixed_viewset.py:31-42 | anonymous gets 401; signed-in passes all but destroy, which admits exactly the staff (a manager without `is_staff` gets 403) |
| VoucherViews.VariantForTypeRoundTrip | backend/apps/vouchers/views.py:95-105 | reading a row's type name back selects the row's own serializer |
| VoucherViews.SerializerFor | backend/apps/vouchers/views.py:75-108 | list and validate have their own serializers, create picks by `voucher_type`, update by the instance's type, everything else the base serializer |
| VoucherViews.SortDesc | backend/apps/vouchers/views/usage_viewset.py:24 | the ordering is a permutation of its input, largest key first |
| VoucherViews.ListVouchers | backend/apps/vouchers/views.py:52 | the list is ordered newest first |
| VoucherViews.ListVouchersExact | backend/apps/vouchers/views.py:64-73 | the list holds exactly the visible rows, each once per occurrence |
| VoucherViews.VisibleUsages | backend/apps/vouchers/views/usage_viewset.py:24-38 | the usage records come newest first |
| VoucherViews.VisibleUsagesExact | backend/apps/vouchers/views/usage_viewset.py:31-38 | the visible records are records of the table; an admin sees all; anyone else, managers included, exactly their own |
| VoucherViews.UsageEndpoint | backend/apps/vouchers/views/usage_viewset.py:13-25 | anonymous gets 401; the viewset is read-only, so writes get 405 |
| VoucherViews.UsageHistory | backend/apps/vouchers/views.py:182-202 | 401, then 404 for an invisible voucher, then 403 unless admin, manager or creator; the records come newest first |
| VoucherViews.UsageHistoryExact | backend/apps/vouchers/views.py:199 | the history holds exactly that voucher's records |
| VoucherViews.CreateVoucher | backend/apps/vouchers/views.py:126-135 | 401, then 400 for a refused body (a full check, with `created_by` validated against the users), then 403 unless admin or manager, with nothing saved; otherwise 201 and the new row has the requester as creator whatever the body sent |
| VoucherViews.UpdateVoucher | backend/apps/vouchers/views.py:137-146 | 401, 404, 400 (with required fields enforced on a PUT and not on a PATCH), then 403 unless admin or manager, with no change; otherwise 200 and the row is replaced by its patched form, the creator included |
| VoucherViews.UseVoucherAction | backend/apps/vouchers/views.py:204-234 | 401, 404, then the voucher's own code goes through redemption: 201 with one new record for this voucher, the requester and the amounts as sent, and this voucher incremented once and nothing else changed; or 400 with no change |
| Users.FullName | backend/apps/users/models/user.py:110-118 | the email when both names are blank; otherwise the non-empty trimmed join of the names |
| Users.FullNameFallsBackOnEmail | backend/apps/users/models/user.py:117-118 | the email is used when both names are blank, and otherwise the trimmed join, which has no outer whitespace; the result is non-empty when the email is non-empty |
| Users.FullNameExamples | backend/apps/users/tests/test_models/test_user.py:48-68 | "Jane Smith", and the email when both names are empty |
| Users.ShortName | backend/apps/users/models/user.py:120-127 | the first name, or the email when it is empty; non-empty when the email is |
| Users.Display | backend/apps/users/models/user.py:107-108 | the full name followed by the email in parentheses |
| Users.FullNameJoinsNames | backend/apps/users/models/user.py:117-118 | names without outer whitespace are joined by one space |
| Users.DisplayExample | backend/apps/users/tests/test_models/test_user.py:33-46 | John Doe with john.doe@example.com displays as "John Doe (john.doe@example.com)" |
| Users.AdminAndManagerExclusive | backend/apps/users/models/user.py:136-144 | `is_admin` and `is_manager` are never both true |
| Users.NormalizeEmail | backend/apps/users/models/managers.py:35 | a missing email normalises to the empty string |
| Users.NormalizeKeepsLocalPart | backend/apps/users/models/managers.py:35 | the local part is kept, the last `@` stays in place, and the domain has no upper-case letter left |
| Users.NormalizeIdempotent | backend/apps/users/models/user.py:129-134 | normalising twice is normalising once |
| Users.NormalizeSplitsAtLastAt | backend/apps/users/models/managers.py:35 | a trimmed local@domain becomes local@lower(domain) |
| Users.NormalizeExample | backend/apps/users/tests/test_models/test_user.py:125-134 | TEST@EXAMPLE.COM becomes TEST@example.com |
| Users.Cleaned | backend/apps/users/models/user.py:129-134 | `clean` changes nothing but the email |
| Users.CleanIdempotent | backend/apps/users/models/user.py:129-134 | cleaning twice is cleaning once |
| UserSerializers.CheckedText | backend/apps/users/serializers/user_create.py:15-20 | a required text field is accepted, trimmed, iff present, non-blank and accepted by its validator; a value the validator refuses gets the given problem |
| UserSerializers.CreateFieldErrors | backend/apps/users/serializers/user_create.py:15-45 | no error iff the email, both passwords and both names are present and non-blank, the email is well formed and unused (the unique column), and the password passes the password validators |
| UserSerializers.CheckCreate | backend/apps/users/serializers/user_create.py:47-56 | field errors win; otherwise it succeeds iff the passwords match, else one error on `password_confirm`; the result drops the confirmation and keeps the password |
| UserSerializers.CreateRequiresNamesAndMatchingPasswords | backend/apps/users/serializers/user_create.py:41-54 | a missing email, first name or last name, or differing passwords, is always refused; an accepted email is unused |
| UserSerializers.FieldsExcept | backend/apps/users/serializers/user.py:34-39 | the shown or writable fields are exactly the listed ones minus the excluded ones |
| UserSerializers.PasswordsNeverShown | backend/apps/users/serializers/user_create.py:15-25 | neither password appears in the output, while the email does |
| UserSerializers.ValidateOldPassword | backend/apps/users/serializers/password.py:37-44 | accepted iff it is the requester's password; otherwise "Old password is incorrect." |
| UserSerializers.PasswordFieldErrors | backend/apps/users/serializers/password.py:13-25 | no error iff all three fields are present and non-blank, the old one is correct and the new one passes the validators |
| UserSerializers.CheckPasswordChange | backend/apps/users/serializers/password.py:27-35 | succeeds iff the field stage passes and the confirmation matches; otherwise one error on `new_password_confirm`; the result is the new password |
| UserSerializers.PasswordChangeAllowsSamePassword | backend/apps/users/serializers/password.py:27-35 | choosing the current password as the new one is accepted |
| UserSerializers.WrongOldPasswordRefused | backend/apps/users/serializers/password.py:41-43 | a wrong old password is always refused, with the error on `old_password` |
| UserSerializers.ValidateEmail | backend/apps/users/serializers/user.py:41-49 | without an instance nothing is checked; on update the email is refused iff it changed and another user has it |
| UserSerializers.ValidateEmailOnUpdate | backend/apps/users/serializers/user.py:45-48 | an unchanged email is accepted, and another user's email is refused |
| UserSerializers.ReadOnlyUserFields | backend/apps/users/serializers/user.py:34-68 | id and the timestamps are never writable; nothing is writable through the list serializer; the update serializer writes exactly three fields |
| UserSerializers.NameField | backend/apps/users/serializers/user_update.py:17-21 | a name is accepted, trimmed, iff present and non-blank, or absent on a partial update |
| UserSerializers.CheckUpdate | backend/apps/users/views/user_viewset.py:74-75 | an accepted update changes only the first name, last name and phone number, each to the value sent or as it was |
| UserSerializers.UpdateCannotRaisePrivileges | backend/apps/users/serializers/user_update.py:17-21 | an update keeps the role, status, flags, email and password |
| UserStore.UserDb.CreateUser | backend/apps/users/models/managers.py:14-42 | fails iff the email is missing or empty or its normalised form is taken, with no change; otherwise adds one user with the normalised email, role USER and status ACTIVE unless given, and the password |
| UserStore.UserDb.CreateSuperuser | backend/apps/users/models/managers.py:44-69 | an explicit false `is_staff`, then `is_superuser`, is refused; otherwise it fails iff the email is missing, empty or taken once normalised, with no change; a created superuser is the full new row: staff and superuser, role ADMIN and status ACTIVE unless given, the normalised email and the password |
| UserStore.UserDb.CreateFromData | backend/apps/users/serializers/user_create.py:58-64 | fails iff the normalised email is taken, with no change; otherwise the full new row under the next id: the normalised email, the names and phone number, the role and status sent (USER and ACTIVE when absent), active, not staff, not superuser, and the password |
| UserStore.NormalizedCollision | backend/apps/users/serializers/user.py:47 | an email that differs from a stored one but normalises onto it is not in use as typed, yet its normalised form is |
| UserStore.DomainCaseSlipsPastSerializer | backend/apps/users/tests/test_models/test_managers.py:52-66 | with TEST@example.com stored, TEST@EXAMPLE.COM passes the uniqueness check and then collides |
| UserViews.VisibleUsers | backend/apps/users/views/user_viewset.py:48-66 | the visible users are exactly the stored users the requester may see, unchanged |
| UserViews.UserVisibilityRules | backend/apps/users/views/user_viewset.py:54-66 | an admin sees everyone, anonymous nobody, others the ACTIVE and `is_active` users plus themselves |
| UserViews.GetUser | backend/apps/users/views/user_viewset.py:118 | a user is found iff stored and visible; otherwise 404 |
| UserViews.StaffWithoutAdminRoleCannotReachInactive | backend/apps/users/views/user_viewset.py:196-203 | a staff member without the ADMIN role passes `activate`'s permission yet gets 404 for an inactive user |
| UserViews.UserPermissionsFor | backend/apps/users/views/user_viewset.py:87-106 | create is open, destroy, activate and deactivate need `IsAdminUser`, everything else authentication |
| UserViews.UserPermissionTable | backend/apps/users/views/user_viewset.py:87-106 | anybody may register; anonymous gets 401 elsewhere; the admin-only actions admit exactly the staff, others get 403 |
| UserViews.UserSerializerFor | backend/apps/users/views/user_viewset.py:68-85 | create, update and change_password have their own serializers; an admin gets the admin serializer elsewhere; others the list or the plain one |
| UserViews.TargetUser | backend/apps/users/views/user_viewset.py:144-157 | 404 for an invisible user, then 403 unless admin or the requester's own row |
| UserViews.OthersForbidden | backend/apps/users/views/user_viewset.py:114-157 | a non-admin asking for another active user gets 403, for an inactive one 404 |
| UserViews.UpdateProfile | backend/apps/users/views/user_viewset.py:114-142 | 401, 404, 403, then 400 for a refused body, with no change; otherwise 200 and only the names and phone number of that row change |
| UserViews.ChangeOwnPassword | backend/apps/users/views/user_viewset.py:169-194 | 401, then 400 for a refused body; otherwise 200 and only the requester's password changes, to one `check_password` accepts |
| UserViews.ActivateUser | backend/apps/users/views/user_viewset.py:196-215 | 401/403, then 404; otherwise 200 and only that user's status (ACTIVE) and `is_active` (true) change |
| UserViews.DeactivateUser | backend/apps/users/views/user_viewset.py:217-244 | 401/403, 404, then 400 for a superuser with no change; otherwise 200 and only that user's status (INACTIVE) and `is_active` (false) change |
| UserViews.UserVoucherList | backend/apps/users/views/user_viewset.py:246-268 | 401, 404, 403; otherwise a list of vouchers that user created, newest first |
| UserViews.UserVoucherListExact | backend/apps/users/views/user_viewset.py:262 | the list holds exactly the rows that user created, each once per occurrence |
| UserViews.UserUsageList | backend/apps/users/views/user_viewset.py:270-292 | 401, 404, 403; a reachable user's records come newest first |
| UserViews.UserUsageListExact | backend/apps/users/views/user_viewset.py:286 | the listing holds exactly that user's records |
| Auth.LoginEmail | backend/apps/users/views/auth_views.py:40 | the `username` field if truthy, else the `email` field |
| Auth.Login | backend/apps/users/views/auth_views.py:40-83 | 400 without credentials; an unknown email and a wrong password both give 401 "Invalid credentials."; inactivity is reported only after a correct password; success returns the user with `username` = email |
| Auth.RegisterData | backend/apps/users/views/auth_views.py:112-114 | `username` is copied into `email` only when no email was sent |
| Auth.Register | backend/apps/users/views/auth_views.py:116-140 | 400 and no user for a refused body; 500 and no user when the normalised email collides; otherwise 201 and the full new row under the next id: the normalised email, the names and phone number, the role and status sent (USER and ACTIVE when absent), active, not staff, and the password |
| Auth.RegistrantChoosesRole | backend/apps/users/serializers/user_create.py:29-39 | the role sent never decides whether a registration is accepted, and an accepted one keeps it, ADMIN included |
| Auth.Logout | backend/apps/users/views/auth_views.py:159-185 | 200 iff a refresh token is present and blacklisted; every other case is 400 with its own message |
| Access.AdminOrReadOnlyDecides | backend/apps/core/permissions/base.py:13-20 | safe methods are always allowed; a write iff the requester is signed in with role ADMIN |
| Access.CheckPermissions | backend/apps/vouchers/views.py:110-124 | allowed iff every class allows; a refusal is 401 for anonymous and 403 for signed-in requesters |
| Access.OwnerOrAdmin | backend/apps/core/permissions/base.py:28-39 | safe methods allowed; an anonymous write fails on the missing `is_admin`; signed-in requesters always get an answer |
| Access.OwnerOrAdminDecides | backend/apps/core/permissions/base.py:35-39 | a write is allowed iff the requester is the `user`, else the `created_by`, or an admin; with neither attribute, admin only |
| Errors.ErrorMessage | backend/apps/core/exceptions.py:40-66 | a validation error gives "Validation error occurred" whatever the status |
| Errors.ErrorMessageClassifiesStatus | backend/apps/core/exceptions.py:54-66 | otherwise each fixed message belongs to exactly its status (or to all of 5xx), and every other status gets the generic message |
| Errors.Envelope | backend/apps/core/exceptions.py:27-34 | the body is an object with `success` = false and `error` |
| Errors.EnvelopeKeepsBody | backend/apps/core/exceptions.py:27-34 | `error` holds the status, the message and the old body as `details`, wrapped as `{detail: …}` unless it is an object |
| Errors.HandleException | backend/apps/core/exceptions.py:11-37 | with no response nothing happens; otherwise the same response keeps its status and gets the envelope as body |

## Left out

- Persistence: the ORM, `save(update_fields=…)`, `select_related`, and cascading deletes are replaced by the two store objects. The unique constraints appear as failed inserts.
- Concurrency: the validity check and the increment of a redemption are not atomic in the code. The model treats a redemption as one sequential step, so it says nothing about races.
- Password hashing: a stored password is the raw string, and `check_password` is equality. `validate_password` and Django's `EmailValidator` are parameters.
- Tokens: JWT minting, refresh and blacklisting are outside the model. Login and registration return the user, and logout takes the blacklist's verdict as a parameter.
- Filtering and paging: DRF's filter, search, ordering-parameter and pagination backends are not modelled; only each voucher and usage queryset's default ordering is.
- UserViews.VisibleUsers: the user list is a map with no order; users carry no timestamps in the model, so the `-created_at` ordering of the user table is not modelled.
- Ties in the default ordering: `SortDesc` fixes one order among equal keys, while the database leaves it open.
- VoucherSerializers.UsagePercentage: only the null branch is exact. The number is a real quotient, without the float division and `round(…, 2)` of the code.
- Case mapping: `upper()` and `lower()` are modelled on ASCII letters only.
- Field formats: `max_length`, `max_digits` and the phone number's format are not modelled.
- Error bodies: the messages of DRF's and Django's own field errors (required, blank, invalid choice, minimum value, a taken unique value, a refused password, an unknown related id) are reduced to a kind per field.
- Destroy: the destroy actions are modelled only by their permission; the deletion and its cascades are not.
- `me`: only its permission is modelled; it shows the requester's own data.
- The other typed viewsets in backend/apps/vouchers/views.py (percentage, fixed amount and free shipping) are not modelled beyond the fixed-amount viewset's permissions and create.
- Keys: the views look rows up by code (vouchers) or id (users), not by the URL's primary key.
- Null fields: an absent field and an explicit null are one `None`, except `phone_number`, `created_by` and the nullable amounts and limit on update.
- Login looks the user up by the email exactly as typed; the model does the same and proves nothing about case.
- Register: an integrity error in the insert has no handler in the view. The model reports it as 500, the status Django gives an unhandled exception.
- The shadowed duplicate modules (`models.py` and `serializers.py` beside their packages) are never imported, so they are not modelled.
- Health checks, settings, URL routing, admin pages, factories and the frontend are not modelled.
