/**
 * The scheduling workflow: price every package, then repeatedly load the
 * best shipment onto the vehicle free first and take its packages off the
 * remaining list, and finally put the dispatched records back into input
 * order.
 */
module Scheduling {
  import opened Base
  import opened Packages
  import opened Offers
  import opened Pricing
  import opened DeliveryTime
  import opened Shipments
  import opened Fleet
  import CostEstimation

  /**
   * `processPackage` of the scheduling service: the package with every
   * field kept and its charges added. The discount and the total are
   * rounded once more; both are integers already, so the rounding changes
   * nothing and the discount and the total add up to the delivery cost.
   */
  function ProcessPackage(registry: OfferRegistry, p: Package, baseCost: real): (r: Result<Package>)
    reads registry
    ensures r.Err? <==> baseCost < 0.0 || p.weight < 0.0 || p.distance < 0.0
    ensures r.Err? ==> r.error == NegativeCostInput
    ensures r.Ok? ==> r.value == p.(charges := r.value.charges) && r.value.charges.Some?
    ensures r.Ok? ==>
      var c := r.value.charges.value;
      && c.deliveryCost == CalculateDeliveryCost(baseCost, p.weight, p.distance).value
      && c.discount == CalculateDiscount(registry, p.offerCode, p.weight, p.distance, c.deliveryCost as real)
      && c.discount + c.totalCost == c.deliveryCost
  {
    match CalculateDeliveryCost(baseCost, p.weight, p.distance)
    case Err(e) => Err(e)
    case Ok(deliveryCost) =>
      var discountAmount := CalculateDiscount(registry, p.offerCode, p.weight, p.distance, deliveryCost as real);
      RoundOfInteger(discountAmount);
      RoundOfInteger(deliveryCost - discountAmount);
      var discount := Round(discountAmount as real);
      Ok(p.(charges := Some(Charges(deliveryCost, discount, Round((deliveryCost - discount) as real)))))
  }

  /** The scheduling service's pricing and the estimation service's agree on discount and total. */
  lemma PricingServicesAgree(registry: OfferRegistry, p: Package, baseCost: real)
    ensures ProcessPackage(registry, p, baseCost).Ok? == CostEstimation.ProcessPackage(registry, p, baseCost).Ok?
    ensures ProcessPackage(registry, p, baseCost).Ok? ==>
      var c := ProcessPackage(registry, p, baseCost).value.charges.value;
      var e := CostEstimation.ProcessPackage(registry, p, baseCost).value;
      e == CostEstimation.CostEstimate(p.id, c.discount, c.totalCost)
  {
  }

  /** `packages.map(processPackage)`: every package priced, in order; the first failure aborts. */
  function PriceAll(registry: OfferRegistry, ps: seq<Package>, baseCost: real): (r: Result<seq<Package>>)
    reads registry
    ensures r.Err? <==> exists i :: 0 <= i < |ps| && ProcessPackage(registry, ps[i], baseCost).Err?
    ensures r.Err? ==> r.error == NegativeCostInput
    ensures r.Ok? ==> |r.value| == |ps|
    ensures r.Ok? ==> forall i :: 0 <= i < |ps| ==> r.value[i] == ProcessPackage(registry, ps[i], baseCost).value
    decreases |ps|
  {
    if ps == [] then
      Ok([])
    else
      match ProcessPackage(registry, ps[0], baseCost)
      case Err(e) => Err(e)
      case Ok(first) =>
        match PriceAll(registry, ps[1..], baseCost)
        case Err(e) => Err(e)
        case Ok(rest) =>
          assert forall i :: 1 <= i < |ps| ==> ps[i] == ps[1..][i - 1];
          Ok([first] + rest)
  }

  /** Pricing keeps identifiers, weights and distances, so it keeps id-uniqueness and which packages fit. */
  lemma PricingKeepsShape(registry: OfferRegistry, ps: seq<Package>, baseCost: real)
    requires PriceAll(registry, ps, baseCost).Ok?
    ensures var priced := PriceAll(registry, ps, baseCost).value;
      && (UniqueIds(ps) <==> UniqueIds(priced))
      && (forall i :: 0 <= i < |ps| ==>
            priced[i].id == ps[i].id && priced[i].weight == ps[i].weight && priced[i].distance == ps[i].distance)
      && (forall x :: x in priced ==> x.weight >= 0.0 && x.distance >= 0.0)
  {
    var priced := PriceAll(registry, ps, baseCost).value;
    forall x | x in priced
      ensures x.weight >= 0.0 && x.distance >= 0.0
    {
      var i :| 0 <= i < |priced| && priced[i] == x;
      assert ProcessPackage(registry, ps[i], baseCost).Ok?;
    }
  }

  /** The identifiers of a shipment: `new Set(shipment.map(pkg => pkg.id))`. */
  function IdsOf(shipment: seq<Package>): (r: set<string>)
    ensures forall x :: x in shipment ==> x.id in r
    ensures forall id :: id in r ==> exists x :: x in shipment && x.id == id
  {
    set x | x in shipment :: x.id
  }

  /** `remaining.filter(pkg => !ids.has(pkg.id))`. */
  function RemoveIds(ps: seq<Package>, ids: set<string>): (r: seq<Package>)
    ensures forall x :: x in r <==> x in ps && x.id !in ids
    ensures |r| <= |ps|
    ensures (exists x :: x in ps && x.id in ids) ==> |r| < |ps|
    ensures UniqueIds(ps) ==> UniqueIds(r)
    decreases |ps|
  {
    if ps == [] then
      []
    else
      var rest := RemoveIds(ps[1..], ids);
      assert forall x :: x in ps ==> x == ps[0] || x in ps[1..];
      if ps[0].id in ids then
        rest
      else
        assert UniqueIds(ps) ==> forall x :: x in rest ==> x.id != ps[0].id;
        [ps[0]] + rest
  }

  /**
   * With unique identifiers, taking a shipment's identifiers off the list
   * takes off exactly the shipment: nothing is lost and nothing is left twice.
   */
  lemma RemoveShipment(remaining: seq<Package>, shipment: seq<Package>)
    requires UniqueIds(remaining) && IsSubsequence(shipment, remaining)
    ensures multiset(remaining) == multiset(shipment) + multiset(RemoveIds(remaining, IdsOf(shipment)))
  {
    SubsequenceFacts(shipment, remaining);
    IdDeterminesPackage(remaining);
    var rest := RemoveIds(remaining, IdsOf(shipment));
    forall x
      ensures multiset(remaining)[x] == multiset(shipment)[x] + multiset(rest)[x]
    {
      UniqueCount(remaining, x);
      UniqueCount(shipment, x);
      UniqueCount(rest, x);
    }
  }

  /** A record's arrival time is stamped from a departure at or after the start of the run. */
  ghost predicate DepartedAfterStart(rec: DispatchRecord, maxSpeed: real)
  {
    maxSpeed != 0.0 &&
    exists departure :: departure >= 0.0 && rec.eta == CalculateETA(departure, rec.pkg.distance, maxSpeed)
  }

  /** Every record is one of `processed`, stamped from a departure at or after the start. */
  ghost predicate RecordsOf(recs: seq<DispatchRecord>, processed: seq<Package>, maxSpeed: real)
  {
    forall rec :: rec in recs ==> rec.pkg in processed && DepartedAfterStart(rec, maxSpeed)
  }

  /**
   * The bookkeeping of the loop with unique identifiers: the records and
   * the remaining packages together are the priced packages, each once,
   * and a package too heavy for a vehicle is never taken off the list.
   */
  ghost predicate Accounted(processed: seq<Package>, scheduled: seq<DispatchRecord>, remaining: seq<Package>, capacity: real)
  {
    && UniqueIds(remaining)
    && multiset(Pkgs(scheduled)) + multiset(remaining) == multiset(processed)
    && forall x :: x in processed && x.weight > capacity ==> x in remaining
  }

  /** One round of the loop keeps the bookkeeping. */
  lemma AccountedStep(processed: seq<Package>, scheduled: seq<DispatchRecord>, remaining: seq<Package>,
                      shipment: seq<Package>, dispatched: seq<DispatchRecord>, capacity: real)
    requires Accounted(processed, scheduled, remaining, capacity)
    requires IsSubsequence(shipment, remaining) && RunningWeightWithin(shipment, capacity)
    requires forall x :: x in remaining ==> x.weight >= 0.0
    requires Pkgs(dispatched) == shipment
    ensures Accounted(processed, scheduled + dispatched, RemoveIds(remaining, IdsOf(shipment)), capacity)
  {
    SubsequenceFacts(shipment, remaining);
    EachFitsAlone(shipment, capacity);
    RemoveShipment(remaining, shipment);
    IdDeterminesPackage(remaining);
    PkgsConcat(scheduled, dispatched);
  }

  /** One round of the loop adds records of its own shipment, stamped from one non-negative departure. */
  lemma RecordsStep(scheduled: seq<DispatchRecord>, processed: seq<Package>, shipment: seq<Package>,
                    departure: real, maxSpeed: real)
    requires maxSpeed != 0.0 && departure >= 0.0
    requires RecordsOf(scheduled, processed, maxSpeed)
    requires forall x :: x in shipment ==> x in processed
    ensures RecordsOf(scheduled + StampEtas(shipment, departure, maxSpeed), processed, maxSpeed)
  {
    var dispatched := StampEtas(shipment, departure, maxSpeed);
    forall rec | rec in dispatched
      ensures rec.pkg in processed && DepartedAfterStart(rec, maxSpeed)
    {
      var k :| 0 <= k < |dispatched| && dispatched[k] == rec;
      assert Pkgs(dispatched)[k] == shipment[k];
    }
  }

  /**
   * What holds between rounds of the dispatch loop: no clock is negative,
   * what remains was priced, every record so far departed at or after the
   * start, and with unique identifiers the bookkeeping balances.
   */
  ghost predicate RunState(times: seq<real>, processed: seq<Package>, scheduled: seq<DispatchRecord>,
                           remaining: seq<Package>, maxSpeed: real, capacity: real)
  {
    && (forall j :: 0 <= j < |times| ==> times[j] >= 0.0)
    && (forall x :: x in remaining ==> x in processed)
    && RecordsOf(scheduled, processed, maxSpeed)
    && (UniqueIds(processed) ==> Accounted(processed, scheduled, remaining, capacity))
  }

  /** One round of the loop on a non-empty shipment keeps the run state and shortens the list. */
  lemma RunStep(times: seq<real>, processed: seq<Package>, scheduled: seq<DispatchRecord>,
                remaining: seq<Package>, shipment: seq<Package>, maxSpeed: real, capacity: real)
    requires 0 < |times| && maxSpeed > 0.0
    requires forall x :: x in processed ==> x.weight >= 0.0 && x.distance >= 0.0
    requires RunState(times, processed, scheduled, remaining, maxSpeed, capacity)
    requires |shipment| > 0 && IsSubsequence(shipment, remaining) && RunningWeightWithin(shipment, capacity)
    ensures RunState(AfterDispatch(times, MaxDistance(shipment), maxSpeed), processed,
                     scheduled + StampEtas(shipment, Earliest(times).time, maxSpeed),
                     RemoveIds(remaining, IdsOf(shipment)), maxSpeed, capacity)
    ensures |RemoveIds(remaining, IdsOf(shipment))| < |remaining|
  {
    SubsequenceFacts(shipment, remaining);
    ShipmentShrinksList(remaining, shipment);
    ClocksStayNonNegative(times, MaxDistance(shipment), maxSpeed);
    RecordsStep(scheduled, processed, shipment, Earliest(times).time, maxSpeed);
    if UniqueIds(processed) {
      AccountedStep(processed, scheduled, remaining, shipment, StampEtas(shipment, Earliest(times).time, maxSpeed), capacity);
    }
  }

  /** Taking a non-empty shipment's identifiers off the list shortens it. */
  lemma ShipmentShrinksList(remaining: seq<Package>, shipment: seq<Package>)
    requires |shipment| > 0 && IsSubsequence(shipment, remaining)
    ensures |RemoveIds(remaining, IdsOf(shipment))| < |remaining|
  {
    SubsequenceFacts(shipment, remaining);
    assert shipment[0] in remaining && shipment[0].id in IdsOf(shipment);
  }

  /** The records of one round in front of the outcome of the rounds after it; a failure stays a failure. */
  function Prefixed(records: seq<DispatchRecord>, rest: Result<seq<DispatchRecord>>): Result<seq<DispatchRecord>>
  {
    if rest.Ok? then Ok(records + rest.value) else rest
  }

  lemma PrefixedTwice(a: seq<DispatchRecord>, b: seq<DispatchRecord>, rest: Result<seq<DispatchRecord>>)
    ensures Prefixed(a, Prefixed(b, rest)) == Prefixed(a + b, rest)
  {
    if rest.Ok? {
      assert a + (b + rest.value) == (a + b) + rest.value;
    }
  }

  /**
   * The rounds of the dispatch loop, stated on the specification of each
   * step. From the clocks `times`: fail when packages remain of which none
   * fits a vehicle; otherwise load the chosen shipment onto the vehicle
   * free first, stamp all its packages from that vehicle's time, move that
   * vehicle's clock to its return, take the shipment's identifiers off the
   * list and go on.
   */
  ghost function Run(times: seq<real>, remaining: seq<Package>, maxSpeed: real, capacity: real): Result<seq<DispatchRecord>>
    requires 0 < |times| && maxSpeed != 0.0
    decreases |remaining|
  {
    if remaining == [] then Ok([])
    else if !SomeFeasible(remaining, capacity) then Err(UnableToSchedule)
    else
      var shipment := ChosenShipment(remaining, capacity);
      ShipmentShrinksList(remaining, shipment);
      Prefixed(StampEtas(shipment, Earliest(times).time, maxSpeed),
               Run(AfterDispatch(times, MaxDistance(shipment), maxSpeed), RemoveIds(remaining, IdsOf(shipment)), maxSpeed, capacity))
  }

  /** One round of the run: the chosen shipment leaves at the earliest time, then the rest of the run. */
  lemma RunRound(times: seq<real>, remaining: seq<Package>, shipment: seq<Package>, maxSpeed: real, capacity: real)
    requires 0 < |times| && maxSpeed != 0.0
    requires remaining != [] && SomeFeasible(remaining, capacity) && shipment == ChosenShipment(remaining, capacity)
    ensures Run(times, remaining, maxSpeed, capacity) ==
      Prefixed(StampEtas(shipment, Earliest(times).time, maxSpeed),
               Run(AfterDispatch(times, MaxDistance(shipment), maxSpeed), RemoveIds(remaining, IdsOf(shipment)), maxSpeed, capacity))
  {
  }

  /** The first of two full loads on a vehicle of capacity 100: the nearer package goes alone. */
  lemma FirstOfTwoLoads(p1: Package, p2: Package)
    requires p1 == Package("P1", 100.0, 100.0, None, None) && p2 == Package("P2", 100.0, 150.0, None, None)
    ensures SomeFeasible([p1, p2], 100.0) && ChosenShipment([p1, p2], 100.0) == [p1]
    ensures RemoveIds([p1, p2], IdsOf([p1])) == [p2]
  {
    assert [p1, p2][0].weight <= 100.0;
    SomeFeasibleIffOneFits([p1, p2], 100.0);
    ChosenMaskExists([p1, p2], 100.0);
    var m :| IsChosenMask([p1, p2], 100.0, m);
    TwoFullLoadsShipOne(100.0, m);
    assert IdsOf([p1]) == {"P1"};
  }

  /** A lone package that fits is the whole last load. */
  lemma LastLoad(p: Package, capacity: real)
    requires p.weight <= capacity
    ensures SomeFeasible([p], capacity) && ChosenShipment([p], capacity) == [p]
    ensures RemoveIds([p], IdsOf([p])) == []
  {
    assert [p][0].weight <= capacity;
    SomeFeasibleIffOneFits([p], capacity);
    ChosenMaskExists([p], capacity);
    var m :| IsChosenMask([p], capacity, m);
    SinglePackageShipped(p, capacity, m);
    assert p.id in IdsOf([p]);
  }

  /** The second trip leaves at 2, when the vehicle is back, and a package 150 km away arrives at 3.5. */
  lemma SecondTripStamp(p: Package)
    requires p.distance == 150.0
    ensures Earliest([2.0]).time == 2.0
    ensures StampEtas([p], 2.0, 100.0) == [DispatchRecord(p, 3.5)]
  {
    assert CalculateETA(2.0, 150.0, 100.0) == 3.5;
  }

  /** The last package of the two-trip run goes alone once the vehicle is back at 2. */
  lemma SecondTripRun(p2: Package)
    requires p2 == Package("P2", 100.0, 150.0, None, None)
    ensures Run([2.0], [p2], 100.0, 100.0) == Ok([DispatchRecord(p2, 3.5)])
  {
    LastLoad(p2, 100.0);
    SecondTripStamp(p2);
    RunRound([2.0], [p2], [p2], 100.0, 100.0);
    assert [DispatchRecord(p2, 3.5)] + [] == [DispatchRecord(p2, 3.5)];
  }

  /**
   * One vehicle at 100 km/h with capacity 100 and two 100 kg packages,
   * 100 km and 150 km away: the nearer leaves at 0 and arrives at 1; the
   * other leaves only when the vehicle is back at 2, and arrives at 3.5.
   */
  lemma OneVehicleTwoTrips(p1: Package, p2: Package)
    requires p1 == Package("P1", 100.0, 100.0, None, None) && p2 == Package("P2", 100.0, 150.0, None, None)
    ensures Run([0.0], [p1, p2], 100.0, 100.0) == Ok([DispatchRecord(p1, 1.0), DispatchRecord(p2, 3.5)])
  {
    FirstOfTwoLoads(p1, p2);
    DispatchExample(p1);
    SecondTripRun(p2);
    RunRound([0.0], [p1, p2], [p1], 100.0, 100.0);
    assert [DispatchRecord(p1, 1.0)] + [DispatchRecord(p2, 3.5)] == [DispatchRecord(p1, 1.0), DispatchRecord(p2, 3.5)];
  }

  /**
   * The dispatch loop of `scheduleDeliveries`, run on the priced packages
   * with a fresh fleet: select the best shipment, give up if none can be
   * formed, dispatch it, drop its identifiers from the remaining list.
   * Each round removes at least one package, so the loop ends.
   */
  method DispatchAll(processed: seq<Package>, numVehicles: nat, maxSpeed: real, capacity: real)
    returns (r: Result<seq<DispatchRecord>>)
    requires numVehicles > 0 && maxSpeed > 0.0
    requires forall x :: x in processed ==> x.weight >= 0.0 && x.distance >= 0.0
    ensures r.Err? ==> r.error == UnableToSchedule
    ensures (forall x :: x in processed ==> x.weight <= capacity) ==> r.Ok?
    ensures UniqueIds(processed) && r.Ok? ==> forall x :: x in processed ==> x.weight <= capacity
    ensures r.Ok? && UniqueIds(processed) ==> multiset(Pkgs(r.value)) == multiset(processed)
    ensures r.Ok? ==> RecordsOf(r.value, processed, maxSpeed)
    ensures r == Run(FreshClocks(numVehicles), processed, maxSpeed, capacity)
  {
    var dispatcher := new VehicleAllocator(numVehicles, maxSpeed, capacity);
    var scheduled: seq<DispatchRecord> := [];
    var remaining := processed;
    assert dispatcher.availableTimes[..] == FreshClocks(numVehicles);
    ghost var run := Run(FreshClocks(numVehicles), processed, maxSpeed, capacity);
    if run.Ok? {
      assert [] + run.value == run.value;
    }
    while |remaining| > 0
      invariant dispatcher.Valid() && dispatcher.numVehicles == numVehicles && dispatcher.maxSpeed == maxSpeed
      invariant fresh(dispatcher.availableTimes)
      invariant RunState(dispatcher.availableTimes[..], processed, scheduled, remaining, maxSpeed, capacity)
      invariant run == Prefixed(scheduled, Run(dispatcher.availableTimes[..], remaining, maxSpeed, capacity))
      decreases |remaining|
    {
      var shipment := FindBestShipment(remaining, capacity);
      SomeFeasibleIffOneFits(remaining, capacity);
      if |shipment| == 0 {
        assert remaining[0] in processed && remaining[0].weight > capacity;
        return Err(UnableToSchedule);
      }
      ghost var times := dispatcher.availableTimes[..];
      RunStep(times, processed, scheduled, remaining, shipment, maxSpeed, capacity);
      RunRound(times, remaining, shipment, maxSpeed, capacity);
      var dispatched := dispatcher.DispatchShipment(shipment);
      PrefixedTwice(scheduled, dispatched,
                    Run(dispatcher.availableTimes[..], RemoveIds(remaining, IdsOf(shipment)), maxSpeed, capacity));
      scheduled := scheduled + dispatched;
      remaining := RemoveIds(remaining, IdsOf(shipment));
    }
    assert scheduled + [] == scheduled;
    r := Ok(scheduled);
  }

  /** Which original index the re-sort uses for an identifier. */
  datatype IndexRule =
    | LastOccurrence   // `new Map(processed.map((pkg, i) => [pkg.id, i]))`: a later entry overwrites
    | FirstOccurrence  // `processed.findIndex(p => p.id === id)`

  /** The last position of `id` in `ps`, or -1. */
  function LastIndexOfId(ps: seq<Package>, id: string): (r: int)
    ensures -1 <= r < |ps|
    ensures r >= 0 ==> ps[r].id == id
  {
    if ps == [] then -1
    else if ps[|ps| - 1].id == id then |ps| - 1
    else LastIndexOfId(ps[..|ps| - 1], id)
  }

  /** The first position of `id` in `ps`, or -1. */
  function FirstIndexOfId(ps: seq<Package>, id: string): (r: int)
    ensures -1 <= r < |ps|
    ensures r >= 0 ==> ps[r].id == id
  {
    if ps == [] then -1
    else if ps[0].id == id then 0
    else
      var rest := FirstIndexOfId(ps[1..], id);
      if rest == -1 then -1 else rest + 1
  }

  /** -1 means absent, and no later position holds the identifier. */
  lemma {:induction false} LastIndexOfIdIsLast(ps: seq<Package>, id: string)
    ensures LastIndexOfId(ps, id) == -1 <==> forall j :: 0 <= j < |ps| ==> ps[j].id != id
    ensures forall j :: LastIndexOfId(ps, id) < j < |ps| ==> ps[j].id != id
  {
    if ps != [] && ps[|ps| - 1].id != id {
      LastIndexOfIdIsLast(ps[..|ps| - 1], id);
    }
  }

  /** -1 means absent, and no earlier position holds the identifier. */
  lemma {:induction false} FirstIndexOfIdIsFirst(ps: seq<Package>, id: string)
    ensures FirstIndexOfId(ps, id) == -1 <==> forall j :: 0 <= j < |ps| ==> ps[j].id != id
    ensures forall j :: 0 <= j < FirstIndexOfId(ps, id) ==> ps[j].id != id
  {
    if ps != [] && ps[0].id != id {
      FirstIndexOfIdIsFirst(ps[1..], id);
      assert forall j :: 1 <= j < |ps| ==> ps[j] == ps[1..][j - 1];
    }
  }

  function IndexOfId(ps: seq<Package>, id: string, rule: IndexRule): int
  {
    match rule
    case LastOccurrence => LastIndexOfId(ps, id)
    case FirstOccurrence => FirstIndexOfId(ps, id)
  }

  /** With unique identifiers the two ways of looking up the original index agree. */
  lemma IndexRulesAgree(ps: seq<Package>, id: string)
    requires UniqueIds(ps)
    ensures LastIndexOfId(ps, id) == FirstIndexOfId(ps, id)
  {
    LastIndexOfIdIsLast(ps, id);
    FirstIndexOfIdIsFirst(ps, id);
  }

  /** The comparator key of a record: its package's original index. */
  function Key(processed: seq<Package>, rule: IndexRule, rec: DispatchRecord): int
  {
    IndexOfId(processed, rec.pkg.id, rule)
  }

  predicate SortedByIndex(recs: seq<DispatchRecord>, processed: seq<Package>, rule: IndexRule)
  {
    forall i, j :: 0 <= i < j < |recs| ==> Key(processed, rule, recs[i]) <= Key(processed, rule, recs[j])
  }

  /** Puts `x` in front of the first record whose key is not smaller, so equal keys keep their order. */
  function InsertByIndex(x: DispatchRecord, sorted: seq<DispatchRecord>, processed: seq<Package>, rule: IndexRule)
    : (r: seq<DispatchRecord>)
    ensures multiset(r) == multiset(sorted) + multiset{x}
    decreases |sorted|
  {
    if sorted == [] || Key(processed, rule, x) <= Key(processed, rule, sorted[0]) then
      [x] + sorted
    else
      assert sorted == [sorted[0]] + sorted[1..];
      [sorted[0]] + InsertByIndex(x, sorted[1..], processed, rule)
  }

  /** The insertion adds exactly the record's package to the packages of the list. */
  lemma {:induction false} InsertByIndexPkgs(x: DispatchRecord, sorted: seq<DispatchRecord>, processed: seq<Package>, rule: IndexRule)
    ensures multiset(Pkgs(InsertByIndex(x, sorted, processed, rule))) == multiset(Pkgs(sorted)) + multiset{x.pkg}
    decreases |sorted|
  {
    if sorted == [] || Key(processed, rule, x) <= Key(processed, rule, sorted[0]) {
      PkgsConcat([x], sorted);
    } else {
      var rest := InsertByIndex(x, sorted[1..], processed, rule);
      InsertByIndexPkgs(x, sorted[1..], processed, rule);
      assert sorted == [sorted[0]] + sorted[1..];
      PkgsConcat([sorted[0]], sorted[1..]);
      PkgsConcat([sorted[0]], rest);
    }
  }

  /** A lower bound on every key survives an insertion that respects it. */
  lemma {:induction false} InsertKeepsLowerBound(x: DispatchRecord, sorted: seq<DispatchRecord>, processed: seq<Package>,
                                                 rule: IndexRule, bound: int)
    requires bound <= Key(processed, rule, x)
    requires forall k :: 0 <= k < |sorted| ==> bound <= Key(processed, rule, sorted[k])
    ensures forall k :: 0 <= k < |InsertByIndex(x, sorted, processed, rule)| ==>
      bound <= Key(processed, rule, InsertByIndex(x, sorted, processed, rule)[k])
    decreases |sorted|
  {
    if sorted != [] && Key(processed, rule, x) > Key(processed, rule, sorted[0]) {
      InsertKeepsLowerBound(x, sorted[1..], processed, rule, bound);
    }
  }

  lemma {:induction false} InsertKeepsSorted(x: DispatchRecord, sorted: seq<DispatchRecord>, processed: seq<Package>, rule: IndexRule)
    requires SortedByIndex(sorted, processed, rule)
    ensures SortedByIndex(InsertByIndex(x, sorted, processed, rule), processed, rule)
    decreases |sorted|
  {
    if sorted != [] {
      var head := sorted[0];
      if Key(processed, rule, x) > Key(processed, rule, head) {
        var rest := InsertByIndex(x, sorted[1..], processed, rule);
        InsertKeepsSorted(x, sorted[1..], processed, rule);
        InsertKeepsLowerBound(x, sorted[1..], processed, rule, Key(processed, rule, head));
        ConsKeepsSorted(head, rest, processed, rule);
      }
    }
  }

  /** A record whose key bounds every key of a sorted list stays sorted in front of it. */
  lemma ConsKeepsSorted(head: DispatchRecord, rest: seq<DispatchRecord>, processed: seq<Package>, rule: IndexRule)
    requires SortedByIndex(rest, processed, rule)
    requires forall k :: 0 <= k < |rest| ==> Key(processed, rule, head) <= Key(processed, rule, rest[k])
    ensures SortedByIndex([head] + rest, processed, rule)
  {
    var r := [head] + rest;
    forall i, j | 0 <= i < j < |r|
      ensures Key(processed, rule, r[i]) <= Key(processed, rule, r[j])
    {
      assert r[j] == rest[j - 1];
      if i > 0 {
        assert r[i] == rest[i - 1];
      }
    }
  }

  /** Splitting off the first record splits both multisets. */
  lemma SortStep(recs: seq<DispatchRecord>, rest: seq<DispatchRecord>)
    requires recs != []
    requires multiset(rest) == multiset(recs[1..])
    requires multiset(Pkgs(rest)) == multiset(Pkgs(recs[1..]))
    ensures multiset(rest) + multiset{recs[0]} == multiset(recs)
    ensures multiset(Pkgs(rest)) + multiset{recs[0].pkg} == multiset(Pkgs(recs))
  {
    assert recs == [recs[0]] + recs[1..];
    PkgsConcat([recs[0]], recs[1..]);
    assert Pkgs([recs[0]]) == [recs[0].pkg];
  }

  /**
   * `scheduled.sort(byOriginalIndex)`: a stable sort of the records by the
   * original index of their package.
   */
  function SortByIndex(recs: seq<DispatchRecord>, processed: seq<Package>, rule: IndexRule): (r: seq<DispatchRecord>)
    ensures multiset(r) == multiset(recs)
    ensures multiset(Pkgs(r)) == multiset(Pkgs(recs))
    ensures SortedByIndex(r, processed, rule)
    decreases |recs|
  {
    if recs == [] then
      []
    else
      var rest := SortByIndex(recs[1..], processed, rule);
      InsertKeepsSorted(recs[0], rest, processed, rule);
      InsertByIndexPkgs(recs[0], rest, processed, rule);
      SortStep(recs, rest);
      InsertByIndex(recs[0], rest, processed, rule)
  }

  /** A value at two positions of a sequence occurs at least twice in it. */
  lemma RepeatedOccursTwice<T>(s: seq<T>, i: nat, j: nat)
    requires i < j < |s|
    ensures s[i] == s[j] ==> multiset(s)[s[i]] >= 2
  {
    assert s == s[..j] + [s[j]] + s[j + 1..];
    assert s[i] in s[..j];
  }

  /** A rearrangement of an id-unique list is id-unique. */
  lemma PermutationKeepsUniqueIds(ps: seq<Package>, processed: seq<Package>)
    requires UniqueIds(processed) && multiset(ps) == multiset(processed)
    ensures UniqueIds(ps)
  {
    IdDeterminesPackage(processed);
    forall a, b | 0 <= a < b < |ps|
      ensures ps[a].id != ps[b].id
    {
      assert ps[a] in multiset(processed) && ps[b] in multiset(processed);
      UniqueCount(processed, ps[a]);
      RepeatedOccursTwice(ps, a, b);
    }
  }

  lemma {:induction false} IncreasingAtLeastIndex(ks: seq<int>, i: nat)
    requires forall a :: 0 <= a < |ks| ==> 0 <= ks[a]
    requires forall a, b :: 0 <= a < b < |ks| ==> ks[a] < ks[b]
    requires i < |ks|
    ensures ks[i] >= i
  {
    if i > 0 {
      IncreasingAtLeastIndex(ks, i - 1);
    }
  }

  lemma {:induction false} IncreasingAtMostIndex(ks: seq<int>, i: nat)
    requires forall a :: 0 <= a < |ks| ==> ks[a] < |ks|
    requires forall a, b :: 0 <= a < b < |ks| ==> ks[a] < ks[b]
    requires i < |ks|
    ensures ks[i] <= i
    decreases |ks| - i
  {
    if i < |ks| - 1 {
      IncreasingAtMostIndex(ks, i + 1);
    }
  }

  /** With unique identifiers, the original index of a listed package is where it sits. */
  lemma KeyLocatesPackage(processed: seq<Package>, rule: IndexRule, p: Package)
    requires UniqueIds(processed) && p in processed
    ensures 0 <= IndexOfId(processed, p.id, rule) < |processed|
    ensures processed[IndexOfId(processed, p.id, rule)] == p
  {
    IndexRulesAgree(processed, p.id);
    LastIndexOfIdIsLast(processed, p.id);
    var j :| 0 <= j < |processed| && processed[j] == p;
    var k := IndexOfId(processed, p.id, rule);
    assert k != -1 by {
      assert processed[j].id == p.id;
    }
    SameIdSamePackage(processed, processed[k], p);
  }

  /** A list whose elements sit at strictly increasing positions of a list of the same length is that list. */
  lemma PositionsAreIdentity(ks: seq<int>, ps: seq<Package>, processed: seq<Package>)
    requires |ks| == |ps| == |processed|
    requires forall i :: 0 <= i < |ks| ==> 0 <= ks[i] < |ks| && processed[ks[i]] == ps[i]
    requires forall a, b :: 0 <= a < b < |ks| ==> ks[a] < ks[b]
    ensures ps == processed
  {
    forall i | 0 <= i < |ks|
      ensures ps[i] == processed[i]
    {
      IncreasingAtLeastIndex(ks, i);
      IncreasingAtMostIndex(ks, i);
    }
  }

  /** With unique identifiers, each record's key is the position of its package. */
  lemma KeysLocate(recs: seq<DispatchRecord>, processed: seq<Package>, rule: IndexRule)
    requires UniqueIds(processed)
    requires forall i :: 0 <= i < |recs| ==> recs[i].pkg in processed
    ensures forall i :: 0 <= i < |recs| ==>
      0 <= Key(processed, rule, recs[i]) < |processed| && processed[Key(processed, rule, recs[i])] == recs[i].pkg
  {
    forall i | 0 <= i < |recs|
      ensures 0 <= Key(processed, rule, recs[i]) < |processed| && processed[Key(processed, rule, recs[i])] == recs[i].pkg
    {
      KeyLocatesPackage(processed, rule, recs[i].pkg);
    }
  }

  /** Sorted records of distinct identifiers have strictly increasing keys. */
  lemma KeysStrictlyIncrease(recs: seq<DispatchRecord>, processed: seq<Package>, rule: IndexRule)
    requires UniqueIds(Pkgs(recs))
    requires SortedByIndex(recs, processed, rule)
    requires forall i :: 0 <= i < |recs| ==>
      0 <= Key(processed, rule, recs[i]) < |processed| && processed[Key(processed, rule, recs[i])] == recs[i].pkg
    ensures forall a, b :: 0 <= a < b < |recs| ==> Key(processed, rule, recs[a]) < Key(processed, rule, recs[b])
  {
    var ps := Pkgs(recs);
    forall a, b | 0 <= a < b < |recs|
      ensures Key(processed, rule, recs[a]) < Key(processed, rule, recs[b])
    {
      assert ps[a].id != ps[b].id;
    }
  }

  /** Every element of a rearrangement of a list is in the list, and the lengths agree. */
  lemma PermutationMembers(ps: seq<Package>, processed: seq<Package>)
    requires multiset(ps) == multiset(processed)
    ensures |ps| == |processed|
    ensures forall i :: 0 <= i < |ps| ==> ps[i] in processed
  {
    assert |ps| == |multiset(ps)|;
    forall i | 0 <= i < |ps|
      ensures ps[i] in processed
    {
      assert ps[i] in multiset(processed);
    }
  }

  /** Records whose keys are strictly increasing positions of their packages list those packages in order. */
  lemma KeysAreIdentity(recs: seq<DispatchRecord>, processed: seq<Package>, rule: IndexRule)
    requires |recs| == |processed|
    requires forall i :: 0 <= i < |recs| ==>
      0 <= Key(processed, rule, recs[i]) < |processed| && processed[Key(processed, rule, recs[i])] == recs[i].pkg
    requires forall a, b :: 0 <= a < b < |recs| ==> Key(processed, rule, recs[a]) < Key(processed, rule, recs[b])
    ensures Pkgs(recs) == processed
  {
    var ks := seq(|recs|, i requires 0 <= i < |recs| => Key(processed, rule, recs[i]));
    PositionsAreIdentity(ks, Pkgs(recs), processed);
  }

  /**
   * Records that are a permutation of an id-unique list and are sorted by
   * original index are that list, in its order.
   */
  lemma SortedPermutationIsOriginal(recs: seq<DispatchRecord>, processed: seq<Package>, rule: IndexRule)
    requires UniqueIds(processed)
    requires multiset(Pkgs(recs)) == multiset(processed)
    requires SortedByIndex(recs, processed, rule)
    ensures Pkgs(recs) == processed
  {
    PermutationMembers(Pkgs(recs), processed);
    PermutationKeepsUniqueIds(Pkgs(recs), processed);
    KeysLocate(recs, processed, rule);
    KeysStrictlyIncrease(recs, processed, rule);
    KeysAreIdentity(recs, processed, rule);
  }

  /** Pricing keeps weights, so a package fits before pricing exactly when it fits after. */
  lemma PricingKeepsFit(registry: OfferRegistry, ps: seq<Package>, baseCost: real, capacity: real)
    requires PriceAll(registry, ps, baseCost).Ok?
    ensures (forall x :: x in PriceAll(registry, ps, baseCost).value ==> x.weight <= capacity) <==>
            (forall i :: 0 <= i < |ps| ==> ps[i].weight <= capacity)
  {
    PricingKeepsShape(registry, ps, baseCost);
    SameWeightsSameFit(PriceAll(registry, ps, baseCost).value, ps, capacity);
  }

  /** Two lists with the same weights position by position fit a capacity together or not at all. */
  lemma SameWeightsSameFit(priced: seq<Package>, ps: seq<Package>, capacity: real)
    requires |priced| == |ps|
    requires forall i :: 0 <= i < |ps| ==> priced[i].weight == ps[i].weight
    ensures (forall x :: x in priced ==> x.weight <= capacity) <==>
            (forall i :: 0 <= i < |ps| ==> ps[i].weight <= capacity)
  {
    if forall i :: 0 <= i < |ps| ==> ps[i].weight <= capacity {
      forall x | x in priced
        ensures x.weight <= capacity
      {
        var i :| 0 <= i < |priced| && priced[i] == x;
      }
    }
  }

  /** What the re-sort keeps of the dispatched records, and what it adds with unique identifiers. */
  lemma SortedRecordsFacts(recs: seq<DispatchRecord>, processed: seq<Package>, rule: IndexRule, maxSpeed: real)
    requires RecordsOf(recs, processed, maxSpeed)
    requires UniqueIds(processed) ==> multiset(Pkgs(recs)) == multiset(processed)
    ensures RecordsOf(SortByIndex(recs, processed, rule), processed, maxSpeed)
    ensures UniqueIds(processed) ==> Pkgs(SortByIndex(recs, processed, rule)) == processed
  {
    var sorted := SortByIndex(recs, processed, rule);
    forall rec | rec in sorted
      ensures rec in recs
    {
      assert rec in multiset(recs);
    }
    if UniqueIds(processed) {
      SortedPermutationIsOriginal(sorted, processed, rule);
    }
  }

  /** The records of a run put back in order of original index; a failure stays a failure. */
  function InIndexOrder(run: Result<seq<DispatchRecord>>, processed: seq<Package>, rule: IndexRule): Result<seq<DispatchRecord>>
  {
    if run.Ok? then Ok(SortByIndex(run.value, processed, rule)) else run
  }

  /**
   * `scheduleDeliveries`: price, dispatch, re-sort by the original index
   * (the last index of each identifier, as a `Map` built from the priced
   * list records it).
   *
   * Pricing fails exactly when some package or the base charge is
   * negative. Otherwise the run fails only when some package is heavier
   * than a vehicle carries, and always does so when identifiers are
   * unique. With unique identifiers the result is every priced package
   * once, in input order. Whatever the identifiers, the outcome is the
   * `Run` of the priced packages from a fresh fleet, its records put in
   * order of original index.
   */
  method ScheduleDeliveries(registry: OfferRegistry, packages: seq<Package>, baseCharge: real,
                            numVehicles: nat, maxSpeed: real, capacity: real)
    returns (r: Result<seq<DispatchRecord>>)
    requires numVehicles > 0 && maxSpeed > 0.0
    ensures r == Err(NegativeCostInput) <==> PriceAll(registry, packages, baseCharge).Err?
    ensures r.Err? && PriceAll(registry, packages, baseCharge).Ok? ==> r.error == UnableToSchedule
    ensures PriceAll(registry, packages, baseCharge).Ok? && (forall i :: 0 <= i < |packages| ==> packages[i].weight <= capacity) ==> r.Ok?
    ensures r.Ok? && UniqueIds(packages) ==> forall i :: 0 <= i < |packages| ==> packages[i].weight <= capacity
    ensures r.Ok? && UniqueIds(packages) ==> Pkgs(r.value) == PriceAll(registry, packages, baseCharge).value
    ensures r.Ok? ==> SortedByIndex(r.value, PriceAll(registry, packages, baseCharge).value, LastOccurrence)
    ensures r.Ok? ==> RecordsOf(r.value, PriceAll(registry, packages, baseCharge).value, maxSpeed)
    ensures PriceAll(registry, packages, baseCharge).Ok? ==>
      r == InIndexOrder(Run(FreshClocks(numVehicles), PriceAll(registry, packages, baseCharge).value, maxSpeed, capacity),
                        PriceAll(registry, packages, baseCharge).value, LastOccurrence)
  {
    var priced := PriceAll(registry, packages, baseCharge);
    if priced.Err? {
      return Err(priced.error);
    }
    var processed := priced.value;
    PricingKeepsShape(registry, packages, baseCharge);
    PricingKeepsFit(registry, packages, baseCharge, capacity);
    var dispatched := DispatchAll(processed, numVehicles, maxSpeed, capacity);
    if dispatched.Err? {
      return Err(dispatched.error);
    }
    SortedRecordsFacts(dispatched.value, processed, LastOccurrence, maxSpeed);
    r := Ok(SortByIndex(dispatched.value, processed, LastOccurrence));
  }

  /**
   * The problem-02 `scheduleDeliveries`: the same workflow with one extra
   * shipment selection before the loop, whose result is discarded, and a
   * re-sort by the first index of each identifier (`findIndex`).
   */
  method ScheduleDeliveriesFindIndex(registry: OfferRegistry, packages: seq<Package>, baseCharge: real,
                                     numVehicles: nat, maxSpeed: real, capacity: real)
    returns (r: Result<seq<DispatchRecord>>)
    requires numVehicles > 0 && maxSpeed > 0.0
    ensures r == Err(NegativeCostInput) <==> PriceAll(registry, packages, baseCharge).Err?
    ensures r.Err? && PriceAll(registry, packages, baseCharge).Ok? ==> r.error == UnableToSchedule
    ensures PriceAll(registry, packages, baseCharge).Ok? && (forall i :: 0 <= i < |packages| ==> packages[i].weight <= capacity) ==> r.Ok?
    ensures r.Ok? && UniqueIds(packages) ==> forall i :: 0 <= i < |packages| ==> packages[i].weight <= capacity
    ensures r.Ok? && UniqueIds(packages) ==> Pkgs(r.value) == PriceAll(registry, packages, baseCharge).value
    ensures r.Ok? ==> SortedByIndex(r.value, PriceAll(registry, packages, baseCharge).value, FirstOccurrence)
    ensures r.Ok? ==> RecordsOf(r.value, PriceAll(registry, packages, baseCharge).value, maxSpeed)
    ensures PriceAll(registry, packages, baseCharge).Ok? ==>
      r == InIndexOrder(Run(FreshClocks(numVehicles), PriceAll(registry, packages, baseCharge).value, maxSpeed, capacity),
                        PriceAll(registry, packages, baseCharge).value, FirstOccurrence)
  {
    var priced := PriceAll(registry, packages, baseCharge);
    if priced.Err? {
      return Err(priced.error);
    }
    var processed := priced.value;
    PricingKeepsShape(registry, packages, baseCharge);
    PricingKeepsFit(registry, packages, baseCharge, capacity);
    var _ := FindBestShipment(processed, capacity);
    var dispatched := DispatchAll(processed, numVehicles, maxSpeed, capacity);
    if dispatched.Err? {
      return Err(dispatched.error);
    }
    SortedRecordsFacts(dispatched.value, processed, FirstOccurrence, maxSpeed);
    r := Ok(SortByIndex(dispatched.value, processed, FirstOccurrence));
  }
}
