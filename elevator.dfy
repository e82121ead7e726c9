/** One elevator car. Its floor, direction, state object and two request
    sets change in place, so it is a class; each method is specified by the
    pure function of `Motions` or `ElevatorStates` it performs. */
module Elevators {
  import opened ElevatorConstants
  import opened Motions
  import opened ElevatorStates

  class Elevator {
    const id: int
    const capacity: int
    const kind: ElevatorType
    var currentFloor: int
    var currentDirection: Direction
    var state: ElevatorState
    /** Pending floors above the car, ascending. */
    var upRequests: seq<int>
    /** Pending floors below the car, descending. */
    var downRequests: seq<int>

    function Movement(): Motion
      reads this
    {
      Motion(currentFloor, currentDirection, upRequests, downRequests)
    }

    function Snapshot(): Car
      reads this
    {
      Car(state, Movement())
    }

    ghost predicate Valid()
      reads this
    {
      Movement().Valid()
    }

    /** A new car waits idle at floor 0 with nothing pending. */
    constructor (id: int, capacity: int, kind: ElevatorType)
      ensures this.id == id && this.capacity == capacity && this.kind == kind
      ensures currentFloor == 0 && currentDirection == Idle && state == IdleState
      ensures upRequests == [] && downRequests == []
      ensures Valid()
    {
      this.id := id;
      this.capacity := capacity;
      this.kind := kind;
      currentFloor := 0;
      currentDirection := Idle;
      state := IdleState;
      upRequests := [];
      downRequests := [];
    }

    /** Records a destination in the set on its side of the car. */
    method AddDestination(floor: int)
      requires Valid()
      modifies this
      ensures Valid()
      ensures Movement() == AddDestinationTo(old(Movement()), floor)
      ensures state == old(state)
    {
      AddDestinationKeepsValid(Movement(), floor);
      if floor > currentFloor {
        upRequests := Insert(upRequests, floor, true);
      } else if floor < currentFloor {
        downRequests := Insert(downRequests, floor, false);
      }
    }

    method SetState(newState: ElevatorState)
      modifies this
      ensures state == newState
      ensures Movement() == old(Movement())
    {
      state := newState;
    }

    /** Travels to a floor; the travel time and the arrival notices are not
        modelled. */
    method MoveToFloor(floor: int)
      modifies this
      ensures currentFloor == floor
      ensures currentDirection == old(currentDirection) && state == old(state)
      ensures upRequests == old(upRequests) && downRequests == old(downRequests)
    {
      currentFloor := floor;
    }

    /** One step of the sweep. */
    method ProcessMovement()
      requires Valid()
      modifies this
      ensures Valid()
      ensures Movement() == Step(old(Movement()))
      ensures state == old(state)
    {
      StepKeepsValid(Movement());
      if currentDirection == Up && upRequests != [] {
        var nextFloor := upRequests[0];
        MoveToFloor(nextFloor);
        upRequests := upRequests[1..];
        if upRequests == [] && downRequests != [] {
          currentDirection := Down;
        } else if upRequests == [] {
          currentDirection := Idle;
        }
      } else if currentDirection == Down && downRequests != [] {
        var nextFloor := downRequests[0];
        MoveToFloor(nextFloor);
        downRequests := downRequests[1..];
        if downRequests == [] && upRequests != [] {
          currentDirection := Up;
        } else if downRequests == [] {
          currentDirection := Idle;
        }
      } else if upRequests != [] {
        currentDirection := Up;
      } else if downRequests != [] {
        currentDirection := Down;
      }
    }

    /** Drops every pending request and goes to floor 0. */
    method EmergencyMoveToGround()
      modifies this
      ensures Valid()
      ensures Movement() == Grounded(old(Movement()))
      ensures state == old(state)
    {
      upRequests := [];
      downRequests := [];
      MoveToFloor(0);
    }

    /** Enters the Emergency state and goes to the ground floor. */
    method TriggerEmergency()
      modifies this
      ensures Valid()
      ensures Snapshot() == Car(EmergencyState, Grounded(old(Movement())))
    {
      SetState(EmergencyState);
      EmergencyMoveToGround();
    }

    /** Never in a state that refuses requests, always when idle, and when
        moving only for a call in the car's direction strictly ahead of it. */
    function CanTakeRequest(floor: int, direction: Direction): (r: bool)
      reads this
      ensures !state.CanAcceptRequest() ==> !r
      ensures state == IdleState ==> r
      ensures state == MovingState ==>
        (r <==> direction == currentDirection &&
                ((direction == Up && floor > currentFloor) || (direction == Down && floor < currentFloor)))
    {
      CanTake(Snapshot(), floor, direction)
    }

    /** How many floors lie between the car and `floor`. */
    function GetDistanceFromFloor(floor: int): (d: int)
      reads this
      ensures d >= 0 && (d == currentFloor - floor || d == floor - currentFloor)
    {
      if currentFloor >= floor then currentFloor - floor else floor - currentFloor
    }

    /** Whether any request is pending. */
    function HasRequests(): (r: bool)
      reads this
      ensures r <==> Pending(Movement()) > 0
    {
      upRequests != [] || downRequests != []
    }

    /** The type reported by the car is that of its current state object. */
    function GetStateType(): (t: ElevatorStateType)
      reads this
      ensures t == IdleType <==> state == IdleState
      ensures t == MovingType <==> state == MovingState
      ensures t == EmergencyType <==> state == EmergencyState
      ensures t == MaintenanceType <==> state == MaintenanceState
    {
      state.GetStateType()
    }
  }
}
