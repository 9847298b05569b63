/**
 * The cost-estimation workflow: each package is priced on its own and
 * reported as its identifier, its discount and what is left to pay.
 */
module CostEstimation {
  import opened Base
  import opened Packages
  import opened Offers
  import opened Pricing

  /** `{id, discount, totalCost}`. */
  datatype CostEstimate = CostEstimate(id: string, discount: int, totalCost: int)

  /**
   * `processPackage`: the discount is taken off the rounded delivery cost,
   * so discount and total add up to that cost. A negative base, weight or
   * distance makes the calculator throw, and the error passes through.
   */
  function ProcessPackage(registry: OfferRegistry, p: Package, baseCost: real): (r: Result<CostEstimate>)
    reads registry
    ensures r.Err? <==> baseCost < 0.0 || p.weight < 0.0 || p.distance < 0.0
    ensures r.Err? ==> r.error == NegativeCostInput
    ensures r.Ok? ==> r.value.id == p.id
    ensures r.Ok? ==> r.value.discount + r.value.totalCost == CalculateDeliveryCost(baseCost, p.weight, p.distance).value
    ensures r.Ok? ==>
      r.value.discount == CalculateDiscount(registry, p.offerCode, p.weight, p.distance, CalculateDeliveryCost(baseCost, p.weight, p.distance).value as real)
  {
    match CalculateDeliveryCost(baseCost, p.weight, p.distance)
    case Err(e) => Err(e)
    case Ok(deliveryCost) =>
      var discountAmount := CalculateDiscount(registry, p.offerCode, p.weight, p.distance, deliveryCost as real);
      Ok(CostEstimate(p.id, discountAmount, deliveryCost - discountAmount))
  }

  /**
   * `processAllPackages`: the packages priced in order. The first package
   * that cannot be priced aborts the whole list; an empty list is priced
   * whatever the base cost.
   */
  function ProcessAllPackages(registry: OfferRegistry, ps: seq<Package>, baseCost: real): (r: Result<seq<CostEstimate>>)
    reads registry
    ensures r.Err? <==> exists i :: 0 <= i < |ps| && ProcessPackage(registry, ps[i], baseCost).Err?
    ensures r.Ok? ==> |r.value| == |ps|
    ensures r.Ok? ==> forall i :: 0 <= i < |ps| ==> r.value[i] == ProcessPackage(registry, ps[i], baseCost).value
    decreases |ps|
  {
    if ps == [] then
      Ok([])
    else
      match ProcessPackage(registry, ps[0], baseCost)
      case Err(e) => Err(e)
      case Ok(first) =>
        match ProcessAllPackages(registry, ps[1..], baseCost)
        case Err(e) => Err(e)
        case Ok(rest) =>
          assert forall i :: 1 <= i < |ps| ==> ps[i] == ps[1..][i - 1];
          Ok([first] + rest)
  }

  /** The i-th estimate carries the i-th package's identifier. */
  lemma EstimatesKeepIds(registry: OfferRegistry, ps: seq<Package>, baseCost: real)
    requires ProcessAllPackages(registry, ps, baseCost).Ok?
    ensures forall i :: 0 <= i < |ps| ==> ProcessAllPackages(registry, ps, baseCost).value[i].id == ps[i].id
  {
  }

  /** With offer percentages in [0, 100], nothing priced has a negative total or discount. */
  lemma TotalCostNonNegative(registry: OfferRegistry, p: Package, baseCost: real)
    requires PercentagesBounded(registry.offers)
    requires ProcessPackage(registry, p, baseCost).Ok?
    ensures 0 <= ProcessPackage(registry, p, baseCost).value.discount
    ensures 0 <= ProcessPackage(registry, p, baseCost).value.totalCost
  {
    var cost := CalculateDeliveryCost(baseCost, p.weight, p.distance).value;
    DiscountWithinCost(registry, p.offerCode, p.weight, p.distance, cost);
  }

  /** A package line as the single-file estimator parses it: the identifier is `pkgId`. */
  datatype CliPackage = CliPackage(pkgId: string, weight: real, distance: real, offerCode: string)

  /** The single-file estimator's `processPackage`: destructures `pkgId` and reports it as `id`. */
  function ProcessCliPackage(registry: OfferRegistry, p: CliPackage, baseCost: real): (r: Result<CostEstimate>)
    reads registry
    ensures r.Err? <==> baseCost < 0.0 || p.weight < 0.0 || p.distance < 0.0
    ensures r.Ok? ==> r.value.id == p.pkgId
  {
    match CalculateDeliveryCost(baseCost, p.weight, p.distance)
    case Err(e) => Err(e)
    case Ok(deliveryCost) =>
      var discountAmount := CalculateDiscount(registry, Some(p.offerCode), p.weight, p.distance, deliveryCost as real);
      Ok(CostEstimate(p.pkgId, discountAmount, deliveryCost - discountAmount))
  }

  /** The single-file estimator's `processAllPackages`: the same per-package map. */
  function ProcessAllCliPackages(registry: OfferRegistry, ps: seq<CliPackage>, baseCost: real): (r: Result<seq<CostEstimate>>)
    reads registry
    ensures r.Err? <==> exists i :: 0 <= i < |ps| && ProcessCliPackage(registry, ps[i], baseCost).Err?
    ensures r.Ok? ==> |r.value| == |ps|
    ensures r.Ok? ==> forall i :: 0 <= i < |ps| ==> r.value[i] == ProcessCliPackage(registry, ps[i], baseCost).value
    decreases |ps|
  {
    if ps == [] then
      Ok([])
    else
      match ProcessCliPackage(registry, ps[0], baseCost)
      case Err(e) => Err(e)
      case Ok(first) =>
        match ProcessAllCliPackages(registry, ps[1..], baseCost)
        case Err(e) => Err(e)
        case Ok(rest) =>
          assert forall i :: 1 <= i < |ps| ==> ps[i] == ps[1..][i - 1];
          Ok([first] + rest)
  }

  /** The package as the shared pricing code sees it, with the offer code present. */
  function AsPackage(p: CliPackage): Package
  {
    Package(p.pkgId, p.weight, p.distance, Some(p.offerCode), None)
  }

  /**
   * Apart from the field name, the single-file estimator prices exactly as
   * the service: same cost, same discount, same total, and the same errors.
   */
  lemma {:induction false} CliPricingAgrees(registry: OfferRegistry, ps: seq<CliPackage>, baseCost: real)
    ensures ProcessAllCliPackages(registry, ps, baseCost) ==
      ProcessAllPackages(registry, seq(|ps|, i requires 0 <= i < |ps| => AsPackage(ps[i])), baseCost)
    decreases |ps|
  {
    var asPkgs := seq(|ps|, i requires 0 <= i < |ps| => AsPackage(ps[i]));
    if ps != [] {
      CliPricingAgrees(registry, ps[1..], baseCost);
      assert asPkgs[1..] == seq(|ps[1..]|, i requires 0 <= i < |ps[1..]| => AsPackage(ps[1..][i]));
      assert ProcessCliPackage(registry, ps[0], baseCost) == ProcessPackage(registry, asPkgs[0], baseCost);
    }
  }

  /**
   * The worked pair: PKG1 (100 kg, 100 km, OFR001) and PKG2 (150 kg,
   * 100 km, OFR002) at base 100 come out in order: PKG1 costs 1600 and
   * gets 10% off, PKG2 costs 2100 and gets 7% off.
   */
  lemma EstimationExample(registry: OfferRegistry)
    requires registry.offers == BuiltInOffers()
    ensures ProcessAllPackages(registry, [
        Package("PKG1", 100.0, 100.0, Some("OFR001"), None),
        Package("PKG2", 150.0, 100.0, Some("OFR002"), None)], 100.0)
      == Ok([CostEstimate("PKG1", 160, 1440), CostEstimate("PKG2", 147, 1953)])
  {
    var p1 := Package("PKG1", 100.0, 100.0, Some("OFR001"), None);
    var p2 := Package("PKG2", 150.0, 100.0, Some("OFR002"), None);
    RoundOfInteger(1600);
    RoundOfInteger(160);
    RoundOfInteger(2100);
    RoundOfInteger(147);
    assert CalculateDeliveryCost(100.0, 100.0, 100.0) == Ok(1600);
    assert CalculateDeliveryCost(100.0, 150.0, 100.0) == Ok(2100);
    assert 10.0 / 100.0 * 1600.0 == 160.0;
    assert 7.0 / 100.0 * 2100.0 == 147.0;
    assert ProcessPackage(registry, p1, 100.0) == Ok(CostEstimate("PKG1", 160, 1440));
    assert ProcessPackage(registry, p2, 100.0) == Ok(CostEstimate("PKG2", 147, 1953));
    assert [p1, p2][1..] == [p2] && [p2][1..] == [];
    var e1, e2 := CostEstimate("PKG1", 160, 1440), CostEstimate("PKG2", 147, 1953);
    assert ProcessAllPackages(registry, [], 100.0) == Ok([]);
    assert [e2] + [] == [e2] && [e1] + [e2] == [e1, e2];
    assert ProcessAllPackages(registry, [p2], 100.0) == Ok([e2]);
  }
}
