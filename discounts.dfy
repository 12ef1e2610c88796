/** The three `calculate_discount` methods of the voucher variants
    (models/percentage_discount.py, models/fixed_amount.py,
    models/free_shipping.py), on amounts in cents and percentages in
    hundredths of a percent. */
module Discounts {
  import opened Wrappers
  import opened Money

  /** 100.00 % in hundredths of a percent; also the divisor that turns
      cents * hundredths-of-a-percent into cents. */
  const FullPercent: int := 10000

  /** Python truthiness of a nullable `Decimal`: `None` and zero are false. */
  predicate Truthy(x: Option<int>) {
    x.Some? && x.value != 0
  }

  // ---------------------------------------------------------------------------
  // PercentageDiscountVoucher
  // ---------------------------------------------------------------------------

  /** The model's field validators: 0.01 <= discount_percentage <= 100.00,
      max_discount_amount null or >= 0.01, min_purchase_amount >= 0.00. */
  predicate PercentageFieldsValid(percentage: int, maxDiscount: Option<int>, minPurchase: int) {
    1 <= percentage <= FullPercent
    && (maxDiscount.Some? ==> maxDiscount.value >= 1)
    && minPurchase >= 0
  }

  /** The exact (unrounded) discount, in units of 1/10000 of a cent, after the
      optional cap: purchase * (percentage / 100), then min with the cap. */
  function CappedRaw(percentage: int, maxDiscount: Option<int>, purchase: int): int {
    var raw := purchase * percentage;
    if Truthy(maxDiscount) then Min(raw, maxDiscount.value * FullPercent) else raw
  }

  /** PercentageDiscountVoucher.calculate_discount: zero below the minimum,
      otherwise the capped exact value quantized to the cent (half-even). */
  function PercentageDiscount(percentage: int, maxDiscount: Option<int>, minPurchase: int,
                              purchase: int): (r: int)
    ensures purchase < minPurchase ==> r == 0
    ensures purchase >= minPurchase ==>
              -FullPercent <= 2 * (CappedRaw(percentage, maxDiscount, purchase) - r * FullPercent) <= FullPercent
  {
    if purchase < minPurchase then 0
    else RoundHalfEven(CappedRaw(percentage, maxDiscount, purchase), FullPercent)
  }

  /** From the minimum upwards (inclusive) the result is THE nearest cent to
      min(purchase * percentage / 100, cap), ties to the even cent: any amount
      with that property is the result. */
  lemma PercentageDiscountIsNearestCent(percentage: int, maxDiscount: Option<int>, minPurchase: int,
                                        purchase: int, c: int)
    requires purchase >= minPurchase
    requires -FullPercent <= 2 * (CappedRaw(percentage, maxDiscount, purchase) - c * FullPercent) <= FullPercent
    requires (2 * (CappedRaw(percentage, maxDiscount, purchase) - c * FullPercent) == FullPercent
              || 2 * (CappedRaw(percentage, maxDiscount, purchase) - c * FullPercent) == -FullPercent)
             ==> c % 2 == 0
    ensures PercentageDiscount(percentage, maxDiscount, minPurchase, purchase) == c
  {
    RoundHalfEvenUnique(CappedRaw(percentage, maxDiscount, purchase), FullPercent, c);
  }

  /** Capping before quantizing (as the source does) gives the same cent
      amount as quantizing and then capping. */
  lemma PercentageCapCommutesWithRounding(percentage: int, maxDiscount: Option<int>, minPurchase: int,
                                          purchase: int)
    requires purchase >= minPurchase && Truthy(maxDiscount)
    ensures PercentageDiscount(percentage, maxDiscount, minPurchase, purchase)
            == Min(RoundHalfEven(purchase * percentage, FullPercent), maxDiscount.value)
  {
    var raw := purchase * percentage;
    var cap := maxDiscount.value;
    RoundHalfEvenExact(cap, FullPercent);
    if raw <= cap * FullPercent {
      RoundHalfEvenMonotone(raw, cap * FullPercent, FullPercent);
    } else {
      RoundHalfEvenMonotone(cap * FullPercent, raw, FullPercent);
    }
  }

  /** With a cap, the discount never exceeds it, and it equals the cap as soon
      as the uncapped value reaches it. */
  lemma PercentageRespectsCap(percentage: int, maxDiscount: Option<int>, minPurchase: int, purchase: int)
    requires Truthy(maxDiscount)
    ensures purchase >= minPurchase ==>
              PercentageDiscount(percentage, maxDiscount, minPurchase, purchase) <= maxDiscount.value
    ensures purchase >= minPurchase && purchase * percentage >= maxDiscount.value * FullPercent ==>
              PercentageDiscount(percentage, maxDiscount, minPurchase, purchase) == maxDiscount.value
  {
    if purchase >= minPurchase {
      PercentageCapCommutesWithRounding(percentage, maxDiscount, minPurchase, purchase);
      if purchase * percentage >= maxDiscount.value * FullPercent {
        RoundHalfEvenExact(maxDiscount.value, FullPercent);
        RoundHalfEvenMonotone(maxDiscount.value * FullPercent, purchase * percentage, FullPercent);
      }
    }
  }

  /** Because a valid percentage is at most 100, the discount never exceeds
      the purchase; and it is never negative for a non-negative purchase. */
  lemma PercentageWithinPurchase(percentage: int, maxDiscount: Option<int>, minPurchase: int, purchase: int)
    requires PercentageFieldsValid(percentage, maxDiscount, minPurchase)
    requires purchase >= 0
    ensures 0 <= PercentageDiscount(percentage, maxDiscount, minPurchase, purchase) <= purchase
  {
    if purchase >= minPurchase {
      var capped := CappedRaw(percentage, maxDiscount, purchase);
      assert purchase * percentage <= purchase * FullPercent;
      assert 0 <= purchase * percentage;
      assert 0 <= capped <= purchase * FullPercent;
      RoundHalfEvenExact(0, FullPercent);
      RoundHalfEvenExact(purchase, FullPercent);
      RoundHalfEvenMonotone(0, capped, FullPercent);
      RoundHalfEvenMonotone(capped, purchase * FullPercent, FullPercent);
    }
  }

  /** The test vectors of the percentage model, in cents and hundredths of a percent. */
  lemma PercentageExamples()
    // 10 % of 9.99 is 0.999, quantized to 1.00
    ensures PercentageDiscount(1000, None, 0, 999) == 100
    // 7.5 % of 99.99 is 7.49925, quantized to 7.50
    ensures PercentageDiscount(750, None, 0, 9999) == 750
    // 50 % of 100.00 capped at 20.00
    ensures PercentageDiscount(5000, Some(2000), 0, 10000) == 2000
    // a purchase equal to the minimum (100.00 at 15 %) gets the discount
    ensures PercentageDiscount(1500, None, 10000, 10000) == 1500
    // 30.00 below a 50.00 minimum gets nothing
    ensures PercentageDiscount(2000, None, 5000, 3000) == 0
    // 10 % of 50.00 is 5.00
    ensures PercentageDiscount(1000, None, 0, 5000) == 500
  {
  }

  // ---------------------------------------------------------------------------
  // FixedAmountVoucher
  // ---------------------------------------------------------------------------

  /** The model's field validators: discount_amount >= 0.01, min_purchase_amount >= 0.00. */
  predicate FixedFieldsValid(amount: int, minPurchase: int) {
    amount >= 1 && minPurchase >= 0
  }

  /** FixedAmountVoucher.calculate_discount: zero below the minimum, otherwise
      the fixed amount, but never more than the purchase. */
  function FixedDiscount(amount: int, minPurchase: int, purchase: int): (r: int)
    ensures purchase < minPurchase ==> r == 0
    ensures purchase >= minPurchase ==> r <= amount && r <= purchase && (r == amount || r == purchase)
  {
    if purchase < minPurchase then 0 else Min(amount, purchase)
  }

  /** A valid fixed voucher gives a positive discount on every positive
      purchase that reaches its minimum. */
  lemma FixedDiscountPositive(amount: int, minPurchase: int, purchase: int)
    requires FixedFieldsValid(amount, minPurchase)
    requires purchase > 0 && purchase >= minPurchase
    ensures 0 < FixedDiscount(amount, minPurchase, purchase)
  {
  }

  /** The test vectors of the fixed-amount model, in cents. */
  lemma FixedExamples()
    // 50.00 off a 30.00 purchase gives 30.00
    ensures FixedDiscount(5000, 0, 3000) == 3000
    // 5.00 off a 3.00 purchase gives 3.00
    ensures FixedDiscount(500, 0, 300) == 300
    // minimum 100.00: purchases of 99.99 / 100.00 / 150.00 give 0 / 20.00 / 20.00
    ensures FixedDiscount(2000, 10000, 9999) == 0
    ensures FixedDiscount(2000, 10000, 10000) == 2000
    ensures FixedDiscount(2000, 10000, 15000) == 2000
  {
  }

  // ---------------------------------------------------------------------------
  // FreeShippingVoucher
  // ---------------------------------------------------------------------------

  /** The model's field validators: min_purchase_amount >= 0.00, max_shipping_amount null or >= 0.01. */
  predicate FreeShippingFieldsValid(minPurchase: int, maxShipping: Option<int>) {
    minPurchase >= 0 && (maxShipping.Some? ==> maxShipping.value >= 1)
  }

  /** FreeShippingVoucher.calculate_discount: zero below the minimum, otherwise
      the shipping cost, capped when a (non-zero) cap is set. */
  function FreeShippingDiscount(minPurchase: int, maxShipping: Option<int>, purchase: int,
                                shipping: int): (r: int)
    ensures purchase < minPurchase ==> r == 0
    ensures purchase >= minPurchase && !Truthy(maxShipping) ==> r == shipping
    ensures purchase >= minPurchase && Truthy(maxShipping) ==>
              r <= shipping && r <= maxShipping.value && (r == shipping || r == maxShipping.value)
  {
    if purchase < minPurchase then 0
    else if Truthy(maxShipping) then Min(shipping, maxShipping.value)
    else shipping
  }

  /** The purchase amount matters only through the minimum gate, and a valid
      voucher never covers more than the shipping cost nor less than zero. */
  lemma FreeShippingPurchaseOnlyGates(minPurchase: int, maxShipping: Option<int>, p1: int, p2: int,
                                      shipping: int)
    requires FreeShippingFieldsValid(minPurchase, maxShipping)
    requires p1 >= minPurchase && p2 >= minPurchase && shipping >= 0
    ensures FreeShippingDiscount(minPurchase, maxShipping, p1, shipping)
            == FreeShippingDiscount(minPurchase, maxShipping, p2, shipping)
    ensures 0 <= FreeShippingDiscount(minPurchase, maxShipping, p1, shipping) <= shipping
  {
  }

  /** The test vectors of the free-shipping model, in cents. */
  lemma FreeShippingExamples()
    // shipping 25.00 capped at 10.00
    ensures FreeShippingDiscount(0, Some(1000), 10000, 2500) == 1000
    // shipping 10.00 below a 20.00 cap
    ensures FreeShippingDiscount(0, Some(2000), 10000, 1000) == 1000
    // no cap: the whole shipping cost; zero shipping gives zero
    ensures FreeShippingDiscount(0, None, 10000, 5000) == 5000
    ensures FreeShippingDiscount(0, None, 10000, 0) == 0
    // minimum 200.00: purchases of 150.00 / 250.00 give 0 / 20.00
    ensures FreeShippingDiscount(20000, None, 15000, 2000) == 0
    ensures FreeShippingDiscount(20000, None, 25000, 2000) == 2000
  {
  }
}
