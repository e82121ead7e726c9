/** The dispatch strategies that choose the car to serve a hall call. Each
    reads the cars and changes none of them. The Java list's `get(0)`
    fails on an empty list; here that is the `None` result. */
module Dispatch {
  import opened Wrappers
  import opened ElevatorConstants
  import opened ElevatorStates
  import opened Elevators

  predicate IsIdle(e: Elevator)
    reads e
  {
    e.GetStateType() == IdleType
  }

  /** Some car can take the request. */
  predicate SomeCapable(elevators: seq<Elevator>, floor: int, direction: Direction)
    reads elevators
  {
    exists i :: 0 <= i < |elevators| && elevators[i].CanTakeRequest(floor, direction)
  }

  /** Among the first `n` cars, the one at index `k` can take the request,
      no capable car is nearer, and every capable car before it is farther
      away: the nearest capable car, the first among ties. */
  predicate NearestCapableAmong(elevators: seq<Elevator>, n: int, floor: int, direction: Direction, k: int)
    reads elevators
  {
    && 0 <= k < n <= |elevators|
    && elevators[k].CanTakeRequest(floor, direction)
    && (forall j :: 0 <= j < n && elevators[j].CanTakeRequest(floor, direction) ==>
          elevators[k].GetDistanceFromFloor(floor) <= elevators[j].GetDistanceFromFloor(floor))
    && (forall j :: 0 <= j < k && elevators[j].CanTakeRequest(floor, direction) ==>
          elevators[k].GetDistanceFromFloor(floor) < elevators[j].GetDistanceFromFloor(floor))
  }

  predicate NearestCapable(elevators: seq<Elevator>, floor: int, direction: Direction, k: int)
    reads elevators
  {
    NearestCapableAmong(elevators, |elevators|, floor, direction, k)
  }

  /** The nearest capable car, first among ties, is one car: SCAN and
      shortest-seek-time-first agree whenever some car can take the call. */
  lemma NearestCapableUnique(elevators: seq<Elevator>, floor: int, direction: Direction, k1: int, k2: int)
    requires NearestCapable(elevators, floor, direction, k1)
    requires NearestCapable(elevators, floor, direction, k2)
    ensures k1 == k2
  {
  }

  /** An idle car can take every request, so when no car can take it none
      is idle, and SCAN's search for an idle car always ends in its
      `get(0)` fallback. */
  lemma IdleFallbackFindsNone(elevators: seq<Elevator>, floor: int, direction: Direction)
    requires !SomeCapable(elevators, floor, direction)
    ensures forall e :: e in elevators ==> !IsIdle(e)
    ensures |elevators| > 0 ==> FindBestFcfs(floor, direction, elevators) == Some(elevators[0])
  {
    forall e | e in elevators ensures !IsIdle(e) {
      var i :| 0 <= i < |elevators| && elevators[i] == e;
      assert !elevators[i].CanTakeRequest(floor, direction);
    }
  }

  /** The index of the first idle car, or -1 when none is idle. */
  function FirstIdleIndex(elevators: seq<Elevator>): (k: int)
    reads elevators
    ensures -1 <= k < |elevators|
    ensures k >= 0 ==> IsIdle(elevators[k])
    ensures forall j :: 0 <= j < |elevators| && (k == -1 || j < k) ==> !IsIdle(elevators[j])
    decreases |elevators|
  {
    if |elevators| == 0 then -1
    else if IsIdle(elevators[0]) then 0
    else
      var k := FirstIdleIndex(elevators[1..]);
      if k == -1 then -1 else k + 1
  }

  /** First come, first served: the first idle car, else the first car.
      The requested floor and direction play no part. */
  function FindBestFcfs(floor: int, direction: Direction, elevators: seq<Elevator>): (r: Option<Elevator>)
    reads elevators
    ensures r.None? <==> |elevators| == 0
    ensures r.Some? ==> r.value in elevators
    ensures r.Some? && !IsIdle(r.value) ==> r.value == elevators[0] && forall e :: e in elevators ==> !IsIdle(e)
    ensures r.Some? && IsIdle(r.value) ==>
      exists k :: 0 <= k < |elevators| && r.value == elevators[k] && forall j :: 0 <= j < k ==> !IsIdle(elevators[j])
  {
    if |elevators| == 0 then None
    else
      var k := FirstIdleIndex(elevators);
      if k >= 0 then Some(elevators[k]) else Some(elevators[0])
  }

  /** Picks the nearest capable car, the first among ties; when none can
      take the call, falls back to the first idle car, else the first car,
      which is first come, first served. */
  method FindBestScan(floor: int, direction: Direction, elevators: seq<Elevator>) returns (r: Option<Elevator>)
    ensures r.None? <==> |elevators| == 0
    ensures SomeCapable(elevators, floor, direction) ==>
      exists k :: NearestCapable(elevators, floor, direction, k) && r == Some(elevators[k])
    ensures !SomeCapable(elevators, floor, direction) ==> r == FindBestFcfs(floor, direction, elevators)
  {
    var best := -1;
    var minDistance := 0;
    var i := 0;
    while i < |elevators|
      invariant 0 <= i <= |elevators|
      invariant best == -1 <==> forall j :: 0 <= j < i ==> !elevators[j].CanTakeRequest(floor, direction)
      invariant best != -1 ==> NearestCapableAmong(elevators, i, floor, direction, best)
      invariant best != -1 ==> minDistance == elevators[best].GetDistanceFromFloor(floor)
    {
      if elevators[i].CanTakeRequest(floor, direction) {
        var distance := elevators[i].GetDistanceFromFloor(floor);
        if best == -1 || distance < minDistance {
          minDistance := distance;
          best := i;
        }
      }
      i := i + 1;
    }

    if best == -1 {
      r := FindBestFcfs(floor, direction, elevators);
    } else {
      r := Some(elevators[best]);
    }
  }

  /** Shortest seek time first: the nearest capable car, the first among
      ties; when none can take the call, the first car. */
  method FindBestSstf(floor: int, direction: Direction, elevators: seq<Elevator>) returns (r: Option<Elevator>)
    ensures r.None? <==> |elevators| == 0
    ensures SomeCapable(elevators, floor, direction) ==>
      exists k :: NearestCapable(elevators, floor, direction, k) && r == Some(elevators[k])
    ensures |elevators| > 0 && !SomeCapable(elevators, floor, direction) ==> r == Some(elevators[0])
  {
    if |elevators| == 0 {
      return None;
    }
    var best := 0;
    var found := false;
    var minDistance := 0;
    for i := 0 to |elevators|
      invariant !found ==> best == 0 && forall j :: 0 <= j < i ==> !elevators[j].CanTakeRequest(floor, direction)
      invariant found ==> NearestCapableAmong(elevators, i, floor, direction, best)
      invariant found ==> minDistance == elevators[best].GetDistanceFromFloor(floor)
    {
      if !elevators[i].CanTakeRequest(floor, direction) {
        continue;
      }
      var distance := elevators[i].GetDistanceFromFloor(floor);
      if !found || distance < minDistance {
        minDistance := distance;
        best := i;
        found := true;
      }
    }
    r := Some(elevators[best]);
  }
}
