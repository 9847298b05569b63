# Delivery scheduler — a Dafny model

This project models the core of a small courier system written in
JavaScript. The system prices packages against an offer table and picks the
best load for a vehicle by trying every subset of the waiting packages. It
runs a fleet of vehicles on availability clocks and schedules all packages
as a sequence of round trips. It also parses the three kinds of input line
the command-line programs read.

One Dafny module stands for each part of the system:

| file | module | models |
|---|---|---|
| base.dfy | `Base` | `Option`, `Result`, one error per `throw`, `Math.round`, `Math.max` |
| packages.dfy | `Packages` | the package record, its charges, the dispatch record with `eta` |
| offer_registry.dfy | `Offers` | `OfferRegistry` (a class whose offer map `addOffer` updates in place) |
| delivery_calculator.dfy | `Pricing` | `DeliveryCalculator` |
| delivery_time.dfy | `DeliveryTime` | `DeliveryTimeCalculator` |
| cost_estimation.dfy | `CostEstimation` | `CostEstimationService` and the `pkgId` variant of problem-01.js |
| shipment_optimizer.dfy | `Shipments` | `ShipmentOptimizer.findBestShipment` (a method with its loops) and its optimality specification |
| vehicle_allocator.dfy | `Fleet` | `VehicleAllocator` (a class over an `array` of availability times) and the loop variant of problem-02.js |
| delivery_scheduling.dfy | `Scheduling` | `DeliverySchedulingService` and the `findIndex` variant of problem-02.js |
| text.dfy | `Text` | `trim`, `split(' ')`, `split(/\s+/)`, decimal `parseInt`, `parseFloat`, `Number` |
| input_parser.dfy | `InputParsing` | `InputParser` and the variants of both single-file programs |

problem-01.js and problem-02.js repeat most of the `src/` code. The model
defines each shared piece once and adds only the variants the copies
introduce:

- the `pkgId` field name;
- `parseFirstLine` without the sign check;
- a loop in `findNextAvailableVehicle`;
- a `findIndex` re-sort, with a discarded extra `findBestShipment` call;
- `Number` in `parseVehicleLine`.

problem-02.js's `findBestShipment` (problem-02.js:98-153) is the same
algorithm as src/services/ShipmentOptimizer.js:16-71 and is modelled once.
Its `dispatchShipment` (problem-02.js:213-235) lists the fields of the
record explicitly. Those fields are exactly the fields of the `Package`
datatype plus `eta`, so `Fleet.VehicleAllocator.DispatchShipment` models
both copies.

Numbers are exact: weights, distances, times and money are `real`.
`Math.round(x)` is `floor(x + 1/2)`. A conversion that gives `NaN` gives
`None`. Subset masks are unbounded naturals below 2^n, which agrees with
the 32-bit `1 << i` of the original for up to 30 packages.

Main results:

- **Shipment selection.** `findBestShipment` always returns a subsequence
  of the remaining packages whose running weight stays within the capacity.
  It is non-empty exactly when some package fits on its own. When some
  subset fits, the result is the selection of the unique best mask: most
  packages, then heaviest, then nearest farthest drop, with the lowest mask
  winning exact ties. The single-package fallback can therefore never
  return a package.
- **Fleet.** Dispatching changes exactly the clock of the vehicle free
  first, moving it to the return time of the round trip. No clock goes
  back, departures never move earlier, and every package of a shipment is
  stamped from one departure time. The loop and the `reduce` versions of
  `findNextAvailableVehicle` pick the same vehicle.
- **Scheduling.** Pricing fails exactly when a base charge, weight or
  distance is negative. If every package fits a vehicle, scheduling
  succeeds. With unique identifiers, it succeeds only if every package
  fits, and the result is every priced package exactly once, in input
  order. The outcome is exactly a reference run stated on the
  specification of each round: the chosen shipment of what remains goes on
  the vehicle free first, every package of it is stamped from that
  vehicle's time, and that vehicle's clock moves to its return. The records
  are then put in order of original index. Each round removes at least one
  package, which is the loop's termination measure.

## Model

| member | source | states |
|---|---|---|
| Base.Round | src/services/DeliveryCalculator.js:24 | `Math.round`: the result lies in (x - 1/2, x + 1/2], so halves round up |
| Base.RoundOfInteger | src/services/DeliverySchedulingService.js:37-38 | rounding an integer again changes nothing, so the scheduler's second rounding of discount and total is the identity |
| Base.RoundMonotone | src/services/DeliveryCalculator.js:24 | rounding never reverses order: x ≤ y gives Round(x) ≤ Round(y) |
| Base.Max | src/services/ShipmentOptimizer.js:35 | `Math.max` of two numbers is one of them and at least both |
| Offers.BuiltInOffersBounded | src/models/OfferRegistry.js:7-23 | the built-in table has exactly three codes and every percentage lies in [0, 100] |
| Offers.OfferRegistry.constructor | src/models/OfferRegistry.js:6-24 | a fresh registry holds exactly OFR001, OFR002 and OFR003 with their percentages and inclusive ranges |
| Offers.OfferRegistry.GetOffer | src/models/OfferRegistry.js:31-42 | `getOffer` finds an offer exactly when `isValidOffer` holds, and then it is the stored one |
| Offers.OfferRegistry.AddOffer | src/models/OfferRegistry.js:49-51 | after `addOffer(c, o)`, c maps to o and is valid (an old entry is overwritten); every other code looks up as before |
| Offers.NullIsInvalid | src/models/OfferRegistry.js:40-42 | a null code is never valid and finds no offer |
| Offers.AddOfferIdempotent | src/models/OfferRegistry.js:49-51 | adding the same offer twice leaves the table as adding it once |
| Pricing.CalculateDeliveryCost | src/services/DeliveryCalculator.js:19-25 | an error exactly when base, weight or distance is negative; otherwise a non-negative integer within half a unit of base + 10·weight + 5·distance |
| Pricing.CalculateDiscount | src/services/DeliveryCalculator.js:36-49 | 0 for an unknown or null code; non-zero only if both weight and distance lie in the offer's inclusive ranges; when they do, the offer's percentage of the cost, rounded |
| Pricing.DiscountWithinCost | src/services/DeliveryCalculator.js:45-48 | with percentages in [0, 100] and a non-negative integer cost, 0 ≤ discount ≤ cost |
| Pricing.CalculatorExamples | tests/DeliveryCalculator.test.js:16-29 | cost(100, 5, 5) = 175; OFR001 on 100 kg, 100 km, cost 700 gives 70; an unknown code gives 0 |
| DeliveryTime.CalculateETA | src/services/DeliveryTimeCalculator.js:15-18 | the ETA is a multiple of 1/100 within half a hundredth of the exact arrival time (halves up), which fixes it uniquely |
| DeliveryTime.CalculateReturnTime | src/services/DeliveryTimeCalculator.js:29-31 | the time away is exactly twice the farthest distance over the speed; the vehicle is back no earlier than it left when distance ≥ 0 and speed > 0 |
| DeliveryTime.ArrivalBeforeReturn | src/services/DeliveryTimeCalculator.js:15-31 | a package no farther than the farthest one is reached before the vehicle is back |
| DeliveryTime.TimeExamples | tests/DeliveryTimeCalculator.test.js:7-15 | ETA(0, 100, 100) = 1 and return(0, 100, 100) = 2; 30 km at 50 km/h arrives at 0.6 and is back at 1.2 |
| CostEstimation.ProcessPackage | src/services/CostEstimationService.js:16-27 | calculator errors pass through exactly for negative inputs; otherwise the id is kept, the discount is the calculator's, and discount + total = delivery cost |
| CostEstimation.ProcessAllPackages | src/services/CostEstimationService.js:35-37 | fails exactly when some package fails; otherwise the same length, and the i-th estimate is the i-th package's |
| CostEstimation.EstimatesKeepIds | src/services/CostEstimationService.js:35-37 | the i-th estimate carries the i-th package's identifier |
| CostEstimation.TotalCostNonNegative | src/services/CostEstimationService.js:22-26 | with percentages in [0, 100], neither discount nor total is negative |
| CostEstimation.EstimationExample | tests/CostEstimationService.test.js:28-39 | PKG1 and PKG2 at base 100 give (PKG1, 160, 1440) and (PKG2, 147, 1953), in that order |
| CostEstimation.ProcessCliPackage | problem-01.js:99-111 | errors exactly for negative inputs; the `pkgId` field is reported as `id` |
| CostEstimation.ProcessAllCliPackages | problem-01.js:119-121 | fails exactly when some package fails; otherwise the same length, in order |
| CostEstimation.CliPricingAgrees | problem-01.js:99-121 | apart from the field name, problem-01.js prices every list exactly as the service does (results and errors) |
| Shipments.FindBestShipment | src/services/ShipmentOptimizer.js:16-71 | the result is a subsequence of `remaining` within capacity at every running total; it is non-empty iff some package fits alone; when some subset fits, it is the selection of the chosen mask, i.e. `ChosenShipment` |
| Shipments.MeasureSubset | src/services/ShipmentOptimizer.js:22-39 | the inner loop reports a positive count exactly for a feasible mask, and then its count, total weight and farthest distance |
| Shipments.ExceededPrefixInfeasible | src/services/ShipmentOptimizer.js:29-33 | the early `break` is sound: once a running total exceeds the capacity, the whole mask is infeasible |
| Shipments.SelectIsSubsequence | src/services/ShipmentOptimizer.js:63-70 | the build loop returns the elements at strictly increasing positions of `remaining` |
| Shipments.SubsequenceFacts | src/services/ShipmentOptimizer.js:63-70 | every selected package comes from `remaining`, and an id-unique list yields an id-unique selection |
| Shipments.SomeFeasibleIffOneFits | src/services/ShipmentOptimizer.js:53-61 | some subset fits iff some package fits alone, so the fallback loop never returns a package |
| Shipments.ChosenMaskUnique | src/services/ShipmentOptimizer.js:42-50 | under the strict three-key ranking with lowest-mask ties, at most one mask is chosen |
| Shipments.BestBelow | src/services/ShipmentOptimizer.js:20-51 | the best fitting mask below k under the three-key ranking, ties to the lower mask, or 0 exactly when no mask below k fits |
| Shipments.ChosenMaskExists | src/services/ShipmentOptimizer.js:20-51 | whenever some subset fits, a chosen mask exists |
| Shipments.ChosenShipment | src/services/ShipmentOptimizer.js:20-70 | the selection of the (unique) chosen mask: non-empty, a subsequence of the list, within capacity at every running total |
| Shipments.ChosenMaskOptimal | src/services/ShipmentOptimizer.js:42-50 | no fitting subset has more packages; none as large is heavier; none as large and as heavy has a nearer farthest drop |
| Shipments.EachFitsAlone | src/services/ShipmentOptimizer.js:29-34 | with non-negative weights, every package of a fitting shipment fits on its own |
| Shipments.SinglePackageShipped | tests/ShipmentOptimizer.test.js:7-11 | a lone package within capacity is shipped as it is |
| Shipments.TwoFullLoadsShipOne | tests/ShipmentOptimizer.test.js:13-20 | two 100 kg packages and capacity 100: exactly one package, the nearer, is shipped |
| Fleet.EarliestAmong | src/services/VehicleAllocator.js:19-22 | the `reduce` over the first k times returns a time no later than any of them, at the lowest index with that time |
| Fleet.Earliest | src/services/VehicleAllocator.js:18-25 | the vehicle free first: a minimal time, and every lower index is strictly later |
| Fleet.MaxDistance | src/services/VehicleAllocator.js:34 | `Math.max` of the shipment's distances is one of them and at least all of them |
| Fleet.AfterDispatch | src/services/VehicleAllocator.js:33-38 | the first-free vehicle's clock becomes `calculateReturnTime` from its old time; every other clock is unchanged; with distance ≥ 0 and speed > 0 no clock goes back |
| Fleet.StampEtas | src/services/VehicleAllocator.js:41-48 | the records list the shipment's packages in order, each with `calculateETA` from the one departure time |
| Fleet.VehicleAllocator.constructor | src/services/VehicleAllocator.js:7-12 | parameters stored; a fresh array of `numVehicles` clocks, all at 0 |
| Fleet.VehicleAllocator.FindNextAvailableVehicle | src/services/VehicleAllocator.js:18-25 | a minimal availability time, at the lowest index having it |
| Fleet.VehicleAllocator.FindNextAvailableVehicleByScan | problem-02.js:196-208 | the loop from index 1 with strict `<` picks the same vehicle as the `reduce` |
| Fleet.VehicleAllocator.DispatchShipment | src/services/VehicleAllocator.js:32-49 | the new clocks are the old ones with the first-free vehicle moved to its return time; the records are the shipment stamped from that vehicle's old time |
| Fleet.FreshFleetStartsAtZero | tests/VehicleAllocator.test.js:15-21 | a fresh fleet offers vehicle 0 at time 0 |
| Fleet.DepartureTimesNonDecreasing | src/services/VehicleAllocator.js:18-38 | a dispatch never moves the earliest availability back, so shipments leave at non-decreasing times |
| Fleet.ClocksStayNonNegative | src/services/VehicleAllocator.js:34-38 | clocks that start non-negative stay non-negative |
| Fleet.ArrivalsBeforeReturn | src/services/VehicleAllocator.js:34-48 | every package of a shipment is reached before its vehicle is back |
| Fleet.DispatchExample | tests/VehicleAllocator.test.js:35-44 | one package 100 km away at 100 km/h arrives at 1, and the vehicle is back at 2 |
| Fleet.AllocatorExamples | tests/VehicleAllocator.test.js:15-44 | on the class itself: a fresh fleet of three offers vehicle 0 at time 0; a fresh single vehicle at 100 km/h delivers a package 100 km away at 1 and is back at 2 |
| Scheduling.ProcessPackage | src/services/DeliverySchedulingService.js:19-40 | errors exactly for negative inputs; otherwise every field is kept and the charges are the calculator's cost and discount, with discount + total = cost |
| Scheduling.PricingServicesAgree | src/services/DeliverySchedulingService.js:34-39 | the scheduler's pricing fails when the estimator's does, and otherwise reports the same discount and total |
| Scheduling.PriceAll | src/services/DeliverySchedulingService.js:53-55 | fails exactly when some package fails; otherwise the i-th priced package is the i-th package priced |
| Scheduling.PricingKeepsShape | src/services/DeliverySchedulingService.js:53-55 | pricing keeps ids, weights and distances position by position, and so id-uniqueness |
| Scheduling.PricingKeepsFit | src/services/DeliverySchedulingService.js:53-55 | every priced package fits a vehicle iff every input package does |
| Scheduling.IdsOf | src/services/DeliverySchedulingService.js:74 | the id set holds exactly the shipment's identifiers |
| Scheduling.RemoveIds | src/services/DeliverySchedulingService.js:75 | the filter keeps exactly the packages whose id is not in the set; it shrinks the list whenever some id matches, and keeps ids unique |
| Scheduling.RemoveShipment | src/services/DeliverySchedulingService.js:73-75 | with unique ids, filtering by the shipment's ids removes exactly the shipment (as multisets) |
| Scheduling.AccountedStep | src/services/DeliverySchedulingService.js:69-75 | with unique ids, dispatching a fitting subsequence and filtering it out keeps every package either scheduled or remaining, each once, and keeps too-heavy packages remaining |
| Scheduling.RecordsStep | src/services/DeliverySchedulingService.js:70-72 | appending a stamped shipment of processed packages keeps every record a processed package stamped from a departure at or after 0 |
| Scheduling.RunStep | src/services/DeliverySchedulingService.js:63-76 | one round keeps the loop invariant (clocks ≥ 0, records from priced packages, packages conserved under unique ids) and shortens `remaining` |
| Scheduling.ShipmentShrinksList | src/services/DeliverySchedulingService.js:74-75 | taking a non-empty shipment's identifiers off the list makes it shorter |
| Scheduling.RunRound | src/services/DeliverySchedulingService.js:63-76 | one round of the reference run: the chosen shipment's records, stamped from the earliest clock, come before the rest of the run, which starts from the updated clocks and the filtered list |
| Scheduling.DispatchAll | src/services/DeliverySchedulingService.js:57-76 | the outcome is exactly `Run` from a fresh fleet, so every record's ETA comes from its own round's departure; fails only with 'unable to schedule'; succeeds when every package fits; with unique ids it succeeds only when every package fits, and the records are the priced packages, each once |
| Scheduling.FirstOfTwoLoads | tests/ShipmentOptimizer.test.js:13-20 | of two 100 kg packages at capacity 100 the nearer is shipped first, and the farther is what remains |
| Scheduling.LastLoad | src/services/DeliverySchedulingService.js:63-76 | a lone remaining package that fits is shipped alone, leaving nothing |
| Scheduling.SecondTripStamp | src/services/DeliveryTimeCalculator.js:15-18 | leaving at 2, a package 150 km away at 100 km/h arrives at 3.5 |
| Scheduling.SecondTripRun | src/services/DeliverySchedulingService.js:63-76 | from a clock at 2, the last package goes alone and arrives at 3.5 |
| Scheduling.OneVehicleTwoTrips | src/services/DeliverySchedulingService.js:63-76 | one vehicle, two full loads: the nearer package arrives at 1, the other leaves only when the vehicle is back at 2 and arrives at 3.5 |
| Scheduling.LastIndexOfId | src/services/DeliverySchedulingService.js:79 | the `Map` lookup gives a position holding the id, or -1 |
| Scheduling.LastIndexOfIdIsLast | src/services/DeliverySchedulingService.js:79 | -1 exactly when the id is absent; no later position holds the id |
| Scheduling.FirstIndexOfId | problem-02.js:294-295 | `findIndex` gives a position holding the id, or -1 |
| Scheduling.FirstIndexOfIdIsFirst | problem-02.js:294-295 | -1 exactly when the id is absent; no earlier position holds the id |
| Scheduling.IndexRulesAgree | problem-02.js:293-297 | with unique ids, `findIndex` and the `Map` give the same index |
| Scheduling.InsertByIndex | src/services/DeliverySchedulingService.js:80 | one insertion step of the sort adds exactly the record |
| Scheduling.InsertKeepsSorted | src/services/DeliverySchedulingService.js:80 | inserting into a list sorted by original index keeps it sorted |
| Scheduling.SortByIndex | src/services/DeliverySchedulingService.js:80 | the sort is a permutation of the records (and of their packages), ordered by original index |
| Scheduling.SortedPermutationIsOriginal | src/services/DeliverySchedulingService.js:78-80 | a permutation of an id-unique list sorted by original index is that list in input order |
| Scheduling.SortedRecordsFacts | src/services/DeliverySchedulingService.js:78-80 | the re-sort keeps which records there are; with unique ids it restores input order |
| Scheduling.ScheduleDeliveries | src/services/DeliverySchedulingService.js:51-81 | fails on pricing exactly when pricing fails; otherwise the outcome is `Run` of the priced packages from a fresh fleet, re-sorted by last original index; hence only 'unable to schedule' can fail it, it succeeds when all fit, and with unique ids success means all fit and the result is the priced list in input order |
| Scheduling.ScheduleDeliveriesFindIndex | problem-02.js:265-299 | the same guarantees, re-sorted by the `findIndex` order; the discarded extra selection changes nothing |
| Text.TrimIsTrimmed | src/utils/InputParser.js:12 | `trim` leaves no white space at either end |
| Text.TrimRemovesOnlyWhitespace | src/utils/InputParser.js:12 | `trim` removes a white-space prefix and suffix and nothing else |
| Text.TrimIdempotent | src/utils/InputParser.js:12 | trimming twice is trimming once |
| Text.SplitOnCount | src/utils/InputParser.js:12 | `split(' ')` gives one piece more than there are spaces |
| Text.SplitOnPiecesFree | src/utils/InputParser.js:12 | no piece of `split(' ')` holds a space |
| Text.SplitOnJoin | src/utils/InputParser.js:12 | joining the pieces of `split(' ')` with spaces gives the line back |
| Text.SplitJoin | src/utils/InputParser.js:38 | splitting undoes joining when no part holds a space |
| Text.RunsFacts | src/utils/InputParser.js:66 | `split(/\s+/)` pieces hold no white space, and only the first and last may be empty |
| Text.SplitRunsAfterRun | src/utils/InputParser.js:66 | a white-space run of any length ends a token |
| Text.ParseIntFacts | src/utils/InputParser.js:18 | `parseInt` skips white space and one sign, and is a number exactly when a digit follows |
| Text.ParseFloatFacts | src/utils/InputParser.js:17 | `parseFloat` is a number exactly when a digit, or a point and a digit, come after white space and sign |
| Text.ToNumberFacts | problem-02.js:347 | `Number` of a blank string is 0; otherwise it is a number only when the literal fills the trimmed string, and then agrees with `parseFloat` |
| Text.NumeralReadsBack | src/utils/InputParser.js:17-18 | `parseInt`, `parseFloat` and `Number` read a decimal numeral back as its value |
| Text.ReadOneDecimal | problem-02.js:347 | `Number` reads n.d as n + d/10 |
| InputParsing.FieldCount | src/utils/InputParser.js:12-15 | a line has one field more than the spaces inside its trimmed text |
| InputParsing.TokensArePlain | src/utils/InputParser.js:66 | a non-blank line's tokens are non-empty and hold no white space |
| InputParsing.ParseFirstLine | src/utils/InputParser.js:11-29 | an arity error exactly when there are not 2 fields; on success both values are what `parseFloat`/`parseInt` read and neither is negative |
| InputParsing.ParseFirstLineUnchecked | problem-01.js:131-142 | the same arity error, and never a sign error |
| InputParsing.FirstLineVariantsAgree | problem-01.js:131-142 | the two first-line parsers differ only in refusing a negative base charge or count |
| InputParsing.FirstLineRoundTrip | tests/InputParser.test.js:7-10 | 'b n' with numerals b, n reads back as {b, n} (so '100 3' gives {100, 3}) |
| InputParsing.FirstLineRejectsDoubleSpace | src/utils/InputParser.js:12-15 | a doubled inner space makes three fields and is refused on arity |
| InputParsing.FirstLineRejectsOneField | tests/InputParser.test.js:12-14 | a single numeral is refused on arity |
| InputParsing.NegativeBaseCharge | problem-01.js:131-142 | '-b n' is accepted by problem-01.js's parser and refused by the checked one |
| InputParsing.ParsePackageLine | src/utils/InputParser.js:37-57 | an arity error exactly when there are not 4 fields; on success id and offer code are fields 0 and 3 verbatim, weight and distance are what `parseFloat` reads, neither negative |
| InputParsing.ParsePackageLineCli | problem-01.js:143-160 | the same parse reporting the identifier as `pkgId` |
| InputParsing.PackageLineVariantsAgree | problem-01.js:143-160 | both package-line parsers accept the same lines with the same values and refuse the same lines with the same errors |
| InputParsing.PackageLineRoundTrip | tests/InputParser.test.js:16-24 | 'id w d code' with numerals w, d reads back as that package, fields verbatim |
| InputParsing.PackageLineRejectsThreeFields | tests/InputParser.test.js:26-28 | a package line with three fields is refused on arity |
| InputParsing.ParseVehicleLine | src/utils/InputParser.js:65-89 | an arity error exactly when there are not 3 tokens; on success the values are what `parseInt`/`parseFloat` read, all positive |
| InputParsing.ParseVehicleLineNumber | problem-02.js:340-362 | the same with `Number`; on success the vehicle count is an integer whose `Number` value is the token's |
| InputParsing.VehicleLineRoundTrip | tests/InputParser.test.js:30-37 | three positive numerals read back as {n, v, c}, whatever white-space runs part them |
| InputParsing.VehicleLineNumberRoundTrip | problem-02.js:340-362 | the same line reads back the same way through `Number` |
| InputParsing.VehicleLineRejectsTwoFields | tests/InputParser.test.js:39-41 | a vehicle line with two tokens is refused on arity |
| InputParsing.FractionalCountAccepted | src/utils/InputParser.js:72-82 | 'n.d v c' is accepted with n vehicles, because `parseInt` drops the fraction before the integer check |
| InputParsing.FractionalCountRefused | problem-02.js:347-355 | 'n.d v c' with d ≠ 0 is refused as a non-integer vehicle count |

## Findings

| source | as written | input that shows it | evidently intended | confidence | as-written member | corrected member |
|---|---|---|---|---|---|---|
| src/utils/InputParser.js:72-82 | the vehicle count goes through `parseInt` before the `Number.isInteger` check, so the check cannot fail and a fractional count is truncated | '2.5 70 200' parses as 2 vehicles | refuse a non-integer vehicle count, as the error message says and as problem-02.js:347-355 does by converting with `Number` | medium, not executed | InputParsing.FractionalCountAccepted | InputParsing.FractionalCountRefused |

`InputParsing.ParseVehicleLine` models the code as written, and
`InputParsing.FractionalCountAccepted` proves the truncation for every
n.d. `InputParsing.ParseVehicleLineNumber` is the corrected parser. Its
contract, together with `InputParsing.FractionalCountRefused`, states
that the count it accepts is an integer equal to the token's value.

## Left out

- The readline drivers of problem-01.js and problem-02.js, their printing classes and src/utils/OutputFormatter.js are left out. They are terminal I/O and padding, with no invariant to state.
- `findBestShipmentGreedy` is not part of this model. It appears only in tests/ShipmentOptimizerGreedy.test.js and has no implementation in the repository's sources.
- `removeOffer`, `getAllOffers` and the singleton registry are not part of this model. They appear only in tests/OfferRegistry.test.js, and src/models/OfferRegistry.js does not define them.
- JavaScript key lookups go through the prototype chain and coerce keys, as in `offers['toString']` or `offers[undefined]`. These are not modelled: an offer code is a string or absent, and lookup is map membership.
- IEEE-754 arithmetic is not modelled: rounding error, `NaN` as a value, `Infinity` and `-0`. Values are exact reals, and a conversion that fails gives `None`.
- `Text.ParseFloat`, `Text.ParseInt`, `Text.ToNumber`: these cover decimal literals only. Exponents, `Infinity`, hexadecimal and binary literals, and `parseInt`'s digit limits are left out.
- `Text.IsWhitespace` lists the ASCII white space, the no-break space, the BOM and the line and paragraph separators. The other Unicode space separators that `trim` and `\s` also recognise are left out.
- `Fleet.VehicleAllocator.DispatchShipment`: requires a non-empty shipment. `Math.max()` of no distances is `-Infinity`, which the model has no value for, and the scheduler only dispatches non-empty shipments.
- `Fleet.VehicleAllocator.DispatchShipment`: requires a non-zero speed and at least one vehicle. A zero speed divides by zero, and with no vehicle `availableTimes[0]` is `undefined`; neither has a counterpart among exact reals.
- `Scheduling.ScheduleDeliveries`: requires `numVehicles > 0` and `maxSpeed > 0` for the same reasons.
- `Scheduling.ScheduleDeliveries`: "the run fails only if some package is too heavy" is stated only for unique ids. With a repeated id, the filter drops a heavy package together with a lighter package of the same id that was shipped, so the run can succeed with the heavy package never delivered. The outcome is still fixed exactly by `Scheduling.Run`.
- `Scheduling.ScheduleDeliveriesFindIndex`: same as `Scheduling.ScheduleDeliveries`.
- `Scheduling.ScheduleDeliveries`: records with equal keys can only arise with a repeated id. The model's insertion sort keeps them in run order, as the stable `Array.prototype.sort` does, but no separate lemma states this stability.
- `Scheduling.DispatchAll`: a helper holding the `while` loop of `scheduleDeliveries`. It runs on the priced packages with a fresh fleet, as the original does inline.
- `Shipments.FindBestShipment`: the running best starts with a farthest distance of 0 instead of `Infinity`. That value is never compared, because the first fitting mask always beats the empty starting count of 0.
- `Shipments.FindBestShipment`: masks are unbounded naturals, which agree with the 32-bit shifts at src/services/ShipmentOptimizer.js:20,27 only up to 30 packages. Beyond that the original's enumeration is wrong, and the model does not reproduce it. With 31 or 32 packages `1 << n` is not above 1, so no mask is tried. With 33, `1 << 33` is 2 and `1 << 32` is 1, so mask 1 alone is tried, and it selects packages 0 and 32 together.
- A missing `Map` or `findIndex` entry reads as -1 in the model. It cannot happen for dispatched records, which all come from the priced list, so the original's `undefined - undefined` comparisons do not arise.
