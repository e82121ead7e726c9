/** What each state object does to the car it is asked to act on, and the
    car's own `handleRequest` and `move`, which hand the call to the
    current state. Each method performs in place the transition that
    `ElevatorStates.Handle` or `ElevatorStates.Advance` specifies. */
module StateBehaviour {
  import opened Motions
  import opened ElevatorStates
  import opened Elevators

  /** Idle: record the floor, then switch to Moving. */
  method IdleHandleRequest(e: Elevator, floor: int)
    requires e.Valid()
    modifies e
    ensures e.Valid()
    ensures e.Snapshot() == Car(MovingState, AddDestinationTo(old(e.Movement()), floor))
  {
    e.AddDestination(floor);
    e.SetState(MovingState);
  }

  /** Moving: record the floor and keep moving. */
  method MovingHandleRequest(e: Elevator, floor: int)
    requires e.Valid()
    modifies e
    ensures e.Valid()
    ensures e.Snapshot() == Car(old(e.state), AddDestinationTo(old(e.Movement()), floor))
  {
    e.AddDestination(floor);
  }

  /** Moving: take one step, then go Idle if nothing is left. */
  method MovingMove(e: Elevator)
    requires e.Valid()
    modifies e
    ensures e.Valid()
    ensures e.Movement() == Step(old(e.Movement()))
    ensures e.state == if e.HasRequests() then old(e.state) else IdleState
  {
    e.ProcessMovement();
    if !e.HasRequests() {
      e.SetState(IdleState);
    }
  }

  /** Emergency: go to the ground floor. */
  method EmergencyMove(e: Elevator)
    modifies e
    ensures e.Valid()
    ensures e.Snapshot() == Car(old(e.state), Grounded(old(e.Movement())))
  {
    e.EmergencyMoveToGround();
  }

  /** `Elevator.handleRequest`: the current state handles the request.
      Emergency and Maintenance only report that they refuse it. */
  method HandleRequest(e: Elevator, floor: int)
    requires e.Valid()
    modifies e
    ensures e.Valid()
    ensures e.Snapshot() == Handle(old(e.Snapshot()), floor)
  {
    match e.state
    case IdleState => IdleHandleRequest(e, floor);
    case MovingState => MovingHandleRequest(e, floor);
    case EmergencyState =>
    case MaintenanceState =>
  }

  /** `Elevator.move`: the current state moves the car. Idle and
      Maintenance do nothing. */
  method Move(e: Elevator)
    requires e.Valid()
    modifies e
    ensures e.Valid()
    ensures e.Snapshot() == Advance(old(e.Snapshot()))
  {
    match e.state
    case IdleState =>
    case MovingState => MovingMove(e);
    case EmergencyState => EmergencyMove(e);
    case MaintenanceState =>
  }
}
