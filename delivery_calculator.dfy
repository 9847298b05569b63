/**
 * Delivery cost and offer discount arithmetic. The calculator only reads
 * the offer registry it was constructed with.
 */
module Pricing {
  import opened Base
  import opened Offers

  /** The unrounded cost formula: base + 10 per kg + 5 per km. */
  function CostFormula(baseCost: real, weight: real, distance: real): real
  {
    baseCost + weight * 10.0 + distance * 5.0
  }

  /**
   * `calculateDeliveryCost`: throws on any negative input, otherwise the
   * formula rounded to the nearest integer (halves up).
   */
  function CalculateDeliveryCost(baseCost: real, weight: real, distance: real): (r: Result<int>)
    ensures r.Err? <==> baseCost < 0.0 || weight < 0.0 || distance < 0.0
    ensures r.Err? ==> r.error == NegativeCostInput
    ensures r.Ok? ==> 0 <= r.value
    ensures r.Ok? ==>
      CostFormula(baseCost, weight, distance) - 1.0 / 2.0 < r.value as real <= CostFormula(baseCost, weight, distance) + 1.0 / 2.0
  {
    if baseCost < 0.0 || weight < 0.0 || distance < 0.0 then
      Err(NegativeCostInput)
    else
      Ok(Round(CostFormula(baseCost, weight, distance)))
  }

  /** Weight and distance both lie in the offer's inclusive ranges. */
  predicate Eligible(offer: Offer, weight: real, distance: real)
  {
    offer.weightRange.Contains(weight) && offer.distanceRange.Contains(distance)
  }

  /**
   * `calculateDiscount`: zero for an unknown code or an ineligible package,
   * otherwise the offer's percentage of the cost, rounded.
   */
  function CalculateDiscount(registry: OfferRegistry, offerCode: Option<string>, weight: real, distance: real, deliveryCost: real): (r: int)
    reads registry
    ensures !registry.IsValidOffer(offerCode) ==> r == 0
    ensures r != 0 ==> registry.IsValidOffer(offerCode) && Eligible(registry.GetOffer(offerCode).value, weight, distance)
    ensures registry.IsValidOffer(offerCode) && Eligible(registry.GetOffer(offerCode).value, weight, distance) ==>
      r == Round(registry.GetOffer(offerCode).value.percent / 100.0 * deliveryCost)
  {
    if !registry.IsValidOffer(offerCode) then
      0
    else
      var offer := registry.GetOffer(offerCode).value;
      if Eligible(offer, weight, distance) then
        Round(offer.percent / 100.0 * deliveryCost)
      else
        0
  }

  /** With percentages in [0, 100], the discount on a non-negative integer cost lies in [0, cost]. */
  lemma DiscountWithinCost(registry: OfferRegistry, offerCode: Option<string>, weight: real, distance: real, deliveryCost: int)
    requires PercentagesBounded(registry.offers)
    requires deliveryCost >= 0
    ensures 0 <= CalculateDiscount(registry, offerCode, weight, distance, deliveryCost as real) <= deliveryCost
  {
    if registry.IsValidOffer(offerCode) {
      var offer := registry.GetOffer(offerCode).value;
      var c := deliveryCost as real;
      var f := offer.percent / 100.0;
      assert 0.0 <= f <= 1.0;
      assert 0.0 <= f * c <= c by {
        assert f * c <= 1.0 * c;
      }
      RoundMonotone(0.0, f * c);
      RoundMonotone(f * c, c);
      RoundOfInteger(0);
      RoundOfInteger(deliveryCost);
    }
  }

  /** The worked examples: cost(100, 5, 5) = 175; OFR001 on (100 kg, 100 km, 700) gives 70; an unknown code gives 0. */
  lemma CalculatorExamples(registry: OfferRegistry)
    requires registry.offers == BuiltInOffers()
    ensures CalculateDeliveryCost(100.0, 5.0, 5.0) == Ok(175)
    ensures CalculateDiscount(registry, Some("OFR001"), 100.0, 100.0, 700.0) == 70
    ensures CalculateDiscount(registry, Some("INVALID"), 100.0, 100.0, 700.0) == 0
  {
    assert Round(175.0) == 175 by { RoundOfInteger(175); }
    assert 10.0 / 100.0 * 700.0 == 70.0;
    assert Round(70.0) == 70 by { RoundOfInteger(70); }
    assert "INVALID" !in registry.offers;
  }
}
