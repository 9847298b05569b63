/**
 * The fleet clock: one availability time per vehicle, in hours from the
 * start of the run. A shipment goes to the vehicle that is free first,
 * whose clock then moves to the time it is back from the round trip.
 */
module Fleet {
  import opened Base
  import opened Packages
  import opened DeliveryTime

  /** A vehicle index together with the time it becomes available. */
  datatype Slot = Slot(index: nat, time: real)

  /**
   * The `reduce` over the first `k` availability times, started from
   * `{index: 0, time: times[0]}`: a strictly earlier time replaces the
   * running best, so the lowest index wins ties.
   */
  function EarliestAmong(times: seq<real>, k: nat): (r: Slot)
    requires 0 < |times| && k <= |times|
    ensures r.index < |times| && r.time == times[r.index]
    ensures r.index == 0 || r.index < k
    ensures forall j :: 0 <= j < k ==> r.time <= times[j]
    ensures forall j :: 0 <= j < r.index ==> times[j] > r.time
  {
    if k == 0 then
      Slot(0, times[0])
    else
      var best := EarliestAmong(times, k - 1);
      if times[k - 1] < best.time then Slot(k - 1, times[k - 1]) else best
  }

  /** The vehicle free first: minimal time, and the lowest index with that time. */
  function Earliest(times: seq<real>): (r: Slot)
    requires 0 < |times|
    ensures r.index < |times| && r.time == times[r.index]
    ensures forall j :: 0 <= j < |times| ==> r.time <= times[j]
    ensures forall j :: 0 <= j < r.index ==> times[j] > r.time
  {
    EarliestAmong(times, |times|)
  }

  /** `Math.max` over the distances of a non-empty shipment. */
  function MaxDistance(shipment: seq<Package>): (r: real)
    requires |shipment| > 0
    ensures exists k :: 0 <= k < |shipment| && r == shipment[k].distance
    ensures forall k :: 0 <= k < |shipment| ==> shipment[k].distance <= r
  {
    if |shipment| == 1 then
      shipment[0].distance
    else
      var rest := MaxDistance(shipment[..|shipment| - 1]);
      Max(rest, shipment[|shipment| - 1].distance)
  }

  /**
   * The availability times after one dispatch: only the vehicle free first
   * changes, to its return time. With a non-negative distance and a
   * positive speed no clock goes back.
   */
  function AfterDispatch(times: seq<real>, maxDistance: real, maxSpeed: real): (r: seq<real>)
    requires 0 < |times| && maxSpeed != 0.0
    ensures |r| == |times|
    ensures forall j :: 0 <= j < |times| && j != Earliest(times).index ==> r[j] == times[j]
    ensures r[Earliest(times).index] == CalculateReturnTime(Earliest(times).time, maxDistance, maxSpeed)
    ensures maxDistance >= 0.0 && maxSpeed > 0.0 ==> forall j :: 0 <= j < |times| ==> r[j] >= times[j]
  {
    var slot := Earliest(times);
    times[slot.index := CalculateReturnTime(slot.time, maxDistance, maxSpeed)]
  }

  /**
   * The records of a shipment leaving at `departure`: the packages in
   * shipment order, each stamped with its own arrival time from that one
   * departure.
   */
  function StampEtas(shipment: seq<Package>, departure: real, maxSpeed: real): (r: seq<DispatchRecord>)
    requires maxSpeed != 0.0
    ensures Pkgs(r) == shipment
    ensures forall k :: 0 <= k < |r| ==> r[k].eta == CalculateETA(departure, shipment[k].distance, maxSpeed)
  {
    seq(|shipment|, k requires 0 <= k < |shipment| => DispatchRecord(shipment[k], CalculateETA(departure, shipment[k].distance, maxSpeed)))
  }

  /**
   * `VehicleAllocator`: the fleet parameters and the per-vehicle
   * availability array, which dispatching updates in place.
   */
  class VehicleAllocator {
    const numVehicles: nat
    const maxSpeed: real
    const capacity: real
    const availableTimes: array<real>

    /** One availability slot per vehicle. */
    predicate Valid()
    {
      availableTimes.Length == numVehicles
    }

    /** `Array(numVehicles).fill(0)`: every vehicle is free at time 0. */
    constructor (numVehicles: nat, maxSpeed: real, capacity: real)
      ensures Valid()
      ensures this.numVehicles == numVehicles && this.maxSpeed == maxSpeed && this.capacity == capacity
      ensures fresh(availableTimes)
      ensures forall j :: 0 <= j < availableTimes.Length ==> availableTimes[j] == 0.0
    {
      this.numVehicles := numVehicles;
      this.maxSpeed := maxSpeed;
      this.capacity := capacity;
      var times := new real[numVehicles](_ => 0.0);
      this.availableTimes := times;
    }

    /** `findNextAvailableVehicle` as the `reduce` fold over the array. */
    function FindNextAvailableVehicle(): (r: Slot)
      reads availableTimes
      requires availableTimes.Length > 0
      ensures r.index < availableTimes.Length && r.time == availableTimes[r.index]
      ensures forall j :: 0 <= j < availableTimes.Length ==> r.time <= availableTimes[j]
      ensures forall j :: 0 <= j < r.index ==> availableTimes[j] > r.time
    {
      Earliest(availableTimes[..])
    }

    /**
     * The loop form of `findNextAvailableVehicle`: a scan from index 1 that
     * keeps the first strictly earlier time. It picks the same vehicle as
     * the fold.
     */
    method FindNextAvailableVehicleByScan() returns (index: nat, currentTime: real)
      requires Valid() && numVehicles > 0
      ensures Slot(index, currentTime) == Earliest(availableTimes[..])
    {
      index := 0;
      currentTime := availableTimes[0];
      var i := 1;
      while i < numVehicles
        invariant 1 <= i <= numVehicles
        invariant Slot(index, currentTime) == EarliestAmong(availableTimes[..], i)
      {
        if availableTimes[i] < currentTime {
          currentTime := availableTimes[i];
          index := i;
        }
        i := i + 1;
      }
    }

    /**
     * `dispatchShipment`: the vehicle free first takes the shipment, its
     * clock moves to the return time of a round trip to the farthest
     * package, and every package is stamped with its arrival time.
     */
    method DispatchShipment(shipment: seq<Package>) returns (dispatched: seq<DispatchRecord>)
      requires Valid() && numVehicles > 0 && maxSpeed != 0.0
      requires |shipment| > 0
      modifies availableTimes
      ensures availableTimes[..] == AfterDispatch(old(availableTimes[..]), MaxDistance(shipment), maxSpeed)
      ensures dispatched == StampEtas(shipment, Earliest(old(availableTimes[..])).time, maxSpeed)
    {
      var slot := FindNextAvailableVehicle();
      var maxDistance := MaxDistance(shipment);
      var returnTime := CalculateReturnTime(slot.time, maxDistance, maxSpeed);
      availableTimes[slot.index] := returnTime;
      dispatched := StampEtas(shipment, slot.time, maxSpeed);
    }
  }

  /** The availability times of a fresh fleet of `n` vehicles. */
  function FreshClocks(n: nat): seq<real>
  {
    seq(n, _ => 0.0)
  }

  /** A fresh fleet offers vehicle 0 at time 0. */
  lemma FreshFleetStartsAtZero(n: nat)
    requires n > 0
    ensures Earliest(FreshClocks(n)) == Slot(0, 0.0)
  {
    var times := seq(n, _ => 0.0);
    var r := Earliest(times);
    assert times[0] == 0.0 && r.time == 0.0;
  }

  /**
   * A dispatch never moves the earliest availability back, so successive
   * shipments leave at non-decreasing times.
   */
  lemma DepartureTimesNonDecreasing(times: seq<real>, maxDistance: real, maxSpeed: real)
    requires 0 < |times| && maxDistance >= 0.0 && maxSpeed > 0.0
    ensures Earliest(AfterDispatch(times, maxDistance, maxSpeed)).time >= Earliest(times).time
  {
    var after := AfterDispatch(times, maxDistance, maxSpeed);
    var k := Earliest(after).index;
    assert after[k] >= times[k] >= Earliest(times).time;
  }

  /** Clocks that start non-negative stay non-negative. */
  lemma ClocksStayNonNegative(times: seq<real>, maxDistance: real, maxSpeed: real)
    requires 0 < |times| && maxDistance >= 0.0 && maxSpeed > 0.0
    requires forall j :: 0 <= j < |times| ==> times[j] >= 0.0
    ensures forall j :: 0 <= j < |times| ==> AfterDispatch(times, maxDistance, maxSpeed)[j] >= 0.0
  {
    var after := AfterDispatch(times, maxDistance, maxSpeed);
    forall j | 0 <= j < |times|
      ensures after[j] >= 0.0
    {
      assert after[j] >= times[j];
    }
  }

  /** Every package of a shipment is reached before the vehicle is back. */
  lemma ArrivalsBeforeReturn(shipment: seq<Package>, departure: real, maxSpeed: real)
    requires |shipment| > 0 && maxSpeed > 0.0
    requires forall k :: 0 <= k < |shipment| ==> shipment[k].distance >= 0.0
    ensures forall k :: 0 <= k < |shipment| ==>
      departure + shipment[k].distance / maxSpeed <= CalculateReturnTime(departure, MaxDistance(shipment), maxSpeed)
  {
    var maxDistance := MaxDistance(shipment);
    forall k | 0 <= k < |shipment|
      ensures departure + shipment[k].distance / maxSpeed <= CalculateReturnTime(departure, maxDistance, maxSpeed)
    {
      ArrivalBeforeReturn(departure, shipment[k].distance, maxDistance, maxSpeed);
    }
  }

  /** One package 100 km away on a fresh vehicle at 100 km/h arrives at 1, and the vehicle is back at 2. */
  lemma DispatchExample(p: Package)
    requires p.distance == 100.0
    ensures StampEtas([p], Earliest([0.0]).time, 100.0) == [DispatchRecord(p, 1.0)]
    ensures AfterDispatch([0.0], MaxDistance([p]), 100.0) == [2.0]
  {
    FreshFleetStartsAtZero(1);
    assert seq(1, _ => 0.0) == [0.0];
    TimeExamples();
  }

  /**
   * The allocator driven as in its own examples: three fresh vehicles offer
   * vehicle 0 at time 0; a single fresh vehicle at 100 km/h takes a package
   * 100 km away, which arrives at 1, and the vehicle is back at 2.
   */
  method AllocatorExamples(p: Package) returns (first: Slot, dispatched: seq<DispatchRecord>, clock: real)
    requires p.distance == 100.0
    ensures first == Slot(0, 0.0)
    ensures dispatched == [DispatchRecord(p, 1.0)] && clock == 2.0
  {
    var fleet := new VehicleAllocator(3, 100.0, 500.0);
    first := fleet.FindNextAvailableVehicle();
    assert fleet.availableTimes[0] == 0.0 && first.time == fleet.availableTimes[first.index] == 0.0;
    assert first.index == 0;
    var single := new VehicleAllocator(1, 100.0, 500.0);
    assert single.availableTimes[..] == [0.0];
    DispatchExample(p);
    dispatched := single.DispatchShipment([p]);
    clock := single.availableTimes[0];
  }
}
