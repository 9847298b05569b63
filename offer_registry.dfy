/**
 * The offer table: discount rules keyed by offer code, each a percentage
 * that applies when a package's weight and distance fall in inclusive ranges.
 */
module Offers {
  import opened Base

  /** An inclusive interval `{min, max}`. */
  datatype Range = Range(min: real, max: real) {
    predicate Contains(x: real) {
      min <= x <= max
    }
  }

  datatype Offer = Offer(percent: real, distanceRange: Range, weightRange: Range)

  /** The three offers every fresh registry starts with. */
  function BuiltInOffers(): map<string, Offer>
  {
    map[
      "OFR001" := Offer(10.0, Range(0.0, 199.0), Range(70.0, 200.0)),
      "OFR002" := Offer(7.0, Range(50.0, 150.0), Range(100.0, 250.0)),
      "OFR003" := Offer(5.0, Range(50.0, 250.0), Range(10.0, 150.0))
    ]
  }

  /** Every offer of the table discounts between 0 and 100 percent. */
  predicate PercentagesBounded(offers: map<string, Offer>)
  {
    forall c :: c in offers ==> 0.0 <= offers[c].percent <= 100.0
  }

  lemma BuiltInOffersBounded()
    ensures PercentagesBounded(BuiltInOffers())
    ensures |BuiltInOffers().Keys| == 3
  {
    var m := BuiltInOffers();
    assert m.Keys == {"OFR001", "OFR002", "OFR003"};
  }

  /**
   * The registry object. Its dictionary is updated in place by `AddOffer`.
   * A missing code (`null` or `undefined`) is `None`.
   */
  class OfferRegistry {
    var offers: map<string, Offer>

    constructor ()
      ensures offers == BuiltInOffers()
    {
      offers := BuiltInOffers();
    }

    /** `offers[code] || null`: the offer stored under `code`, if any. */
    function GetOffer(code: Option<string>): (r: Option<Offer>)
      reads this
      ensures r.Some? <==> IsValidOffer(code)
      ensures r.Some? ==> r.value == offers[code.value]
    {
      if code.Some? && code.value in offers then Some(offers[code.value]) else None
    }

    /** `code !== null && offers[code] !== undefined`. */
    predicate IsValidOffer(code: Option<string>)
      reads this
    {
      code.Some? && code.value in offers
    }

    /** Adds the offer, or replaces the one already stored under `code`. */
    method AddOffer(code: string, offer: Offer)
      modifies this
      ensures offers == old(offers)[code := offer]
      ensures GetOffer(Some(code)) == Some(offer) && IsValidOffer(Some(code))
      ensures forall c :: c != code ==> GetOffer(Some(c)) == old(GetOffer(Some(c)))
    {
      offers := offers[code := offer];
    }
  }

  /** `null` is never a valid code, whatever the table holds. */
  lemma NullIsInvalid(registry: OfferRegistry)
    ensures !registry.IsValidOffer(None)
    ensures registry.GetOffer(None) == None
  {
  }

  /** Adding the same offer twice leaves the table as adding it once. */
  lemma AddOfferIdempotent(offers: map<string, Offer>, code: string, offer: Offer)
    ensures offers[code := offer][code := offer] == offers[code := offer]
  {
  }
}
