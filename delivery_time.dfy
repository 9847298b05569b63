/**
 * Arrival and return times of a vehicle trip, in hours from the start of
 * the run. Speeds are in km/h, distances in km.
 */
module DeliveryTime {
  import opened Base

  /**
   * `calculateETA`: departure time plus travel time, rounded to two
   * decimals with `Math.round`. The result is a multiple of 1/100 within
   * half a hundredth of the exact arrival time (halves rounded up), which
   * determines it uniquely.
   */
  function CalculateETA(currentTime: real, distance: real, maxSpeed: real): (r: real)
    requires maxSpeed != 0.0
    ensures (r * 100.0).Floor as real == r * 100.0
    ensures currentTime + distance / maxSpeed - 1.0 / 200.0 < r <= currentTime + distance / maxSpeed + 1.0 / 200.0
  {
    Round((currentTime + distance / maxSpeed) * 100.0) as real / 100.0
  }

  /**
   * `calculateReturnTime`: the vehicle drives to its farthest package and
   * back, so the time spent covers twice the farthest distance.
   */
  function CalculateReturnTime(currentTime: real, maxDistance: real, maxSpeed: real): (r: real)
    requires maxSpeed != 0.0
    ensures (r - currentTime) * maxSpeed == 2.0 * maxDistance
    ensures maxSpeed > 0.0 && maxDistance >= 0.0 ==> r >= currentTime
  {
    currentTime + (2.0 * maxDistance) / maxSpeed
  }

  /** A package no farther than the farthest one is reached before the vehicle is back. */
  lemma ArrivalBeforeReturn(currentTime: real, distance: real, maxDistance: real, maxSpeed: real)
    requires maxSpeed > 0.0 && 0.0 <= maxDistance && distance <= maxDistance
    ensures currentTime + distance / maxSpeed <= CalculateReturnTime(currentTime, maxDistance, maxSpeed)
  {
    assert distance / maxSpeed <= maxDistance / maxSpeed;
    assert (2.0 * maxDistance) / maxSpeed == maxDistance / maxSpeed + maxDistance / maxSpeed;
  }

  /** The worked examples: 100 km at 100 km/h arrives at 1 and is back at 2; 30 km at 50 km/h arrives at 0.6 and is back at 1.2. */
  lemma TimeExamples()
    ensures CalculateETA(0.0, 100.0, 100.0) == 1.0
    ensures CalculateReturnTime(0.0, 100.0, 100.0) == 2.0
    ensures CalculateETA(0.0, 30.0, 50.0) == 0.6
    ensures CalculateReturnTime(0.0, 30.0, 50.0) == 1.2
  {
    RoundOfInteger(100);
    RoundOfInteger(60);
    assert (0.0 + 30.0 / 50.0) * 100.0 == 60 as real;
  }
}
