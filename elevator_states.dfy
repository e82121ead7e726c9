/** The four state objects of a car (Idle, Moving, Emergency,
    Maintenance). They hold no data, so each is a constructor of one
    datatype; what `handleRequest` and `move` do to the car in each state is
    specified here by pure functions on a snapshot of the car, and the
    methods that perform them in place are in `StateBehaviour`. */
module ElevatorStates {
  import opened ElevatorConstants
  import opened Motions

  datatype ElevatorState = IdleState | MovingState | EmergencyState | MaintenanceState
  {
    /** `canAcceptRequest`: Idle and Moving accept requests; Emergency and
        Maintenance refuse them. */
    function CanAcceptRequest(): (r: bool)
      ensures r <==> GetStateType() == IdleType || GetStateType() == MovingType
    {
      match this
      case IdleState => true
      case MovingState => true
      case EmergencyState => false
      case MaintenanceState => false
    }

    /** `getStateType`. */
    function GetStateType(): (t: ElevatorStateType)
      ensures t == IdleType <==> this == IdleState
      ensures t == MovingType <==> this == MovingState
      ensures t == EmergencyType <==> this == EmergencyState
      ensures t == MaintenanceType <==> this == MaintenanceState
    {
      match this
      case IdleState => IdleType
      case MovingState => MovingType
      case EmergencyState => EmergencyType
      case MaintenanceState => MaintenanceType
    }
  }

  /** What a car is at one moment: its state object and its movement data. */
  datatype Car = Car(state: ElevatorState, motion: Motion)

  /** `handleRequest(floor)` as each state performs it: Idle records the
      floor and switches to Moving, Moving records the floor, Emergency and
      Maintenance refuse it. */
  function Handle(c: Car, floor: int): (r: Car)
    ensures c.state.CanAcceptRequest() <==> r.state == MovingState
    ensures c.state.CanAcceptRequest() ==> r.motion == AddDestinationTo(c.motion, floor)
    ensures !c.state.CanAcceptRequest() ==> r == c
  {
    match c.state
    case IdleState => Car(MovingState, AddDestinationTo(c.motion, floor))
    case MovingState => c.(motion := AddDestinationTo(c.motion, floor))
    case EmergencyState => c
    case MaintenanceState => c
  }

  /** `move()` as each state performs it: Idle and Maintenance stay put,
      Moving takes one step of the sweep and goes Idle once nothing is
      pending, and Emergency sends the car to the ground floor. */
  function Advance(c: Car): (r: Car)
    ensures r.state == c.state || (c.state == MovingState && r.state == IdleState)
    ensures c.state == MovingState ==> r.motion == Step(c.motion)
  {
    match c.state
    case IdleState => c
    case MovingState =>
      var m := Step(c.motion);
      Car(if HasRequests(m) then MovingState else IdleState, m)
    case EmergencyState => c.(motion := Grounded(c.motion))
    case MaintenanceState => c
  }

  /** `canTakeRequest(floor, direction)`: never in a state that refuses
      requests, always when idle, and otherwise only for a request in the
      car's own direction that lies strictly ahead of it. */
  function CanTake(c: Car, floor: int, direction: Direction): (r: bool)
    ensures !c.state.CanAcceptRequest() ==> !r
    ensures c.state == IdleState ==> r
    ensures c.state == MovingState ==>
      (r <==> direction == c.motion.direction &&
              ((direction == Up && floor > c.motion.floor) || (direction == Down && floor < c.motion.floor)))
  {
    if !c.state.CanAcceptRequest() then false
    else if c.state.GetStateType() == IdleType then true
    else if c.motion.direction == Up && direction == Up && floor > c.motion.floor then true
    else if c.motion.direction == Down && direction == Down && floor < c.motion.floor then true
    else false
  }

  /** Neither a request nor a move puts a pending floor on the wrong side of
      the car or out of order. */
  lemma TransitionsKeepValid(c: Car, floor: int)
    requires c.motion.Valid()
    ensures Handle(c, floor).motion.Valid()
    ensures Advance(c).motion.Valid()
  {
    AddDestinationKeepsValid(c.motion, floor);
    StepKeepsValid(c.motion);
  }

  /** An idle car switches to Moving on every request, even one for the
      floor it is at, which records nothing. */
  lemma IdleMovesOnAnyRequest(c: Car, floor: int)
    requires c.state == IdleState
    ensures Handle(c, floor).state == MovingState
    ensures floor == c.motion.floor ==> Handle(c, floor) == Car(MovingState, c.motion)
  {
  }

  /** After a move, a moving car is Idle exactly when nothing is pending. */
  lemma MovingSettlesWhenDone(c: Car)
    requires c.state == MovingState
    ensures Advance(c).state == IdleState <==> !HasRequests(Advance(c).motion)
  {
  }

  /** Emergency is never left by a request or a move; a request changes
      nothing and a move leaves the car at floor 0 with nothing pending. */
  lemma EmergencyIsAbsorbing(c: Car, floor: int)
    requires c.state == EmergencyState
    ensures Handle(c, floor) == c
    ensures Advance(c).state == EmergencyState && Advance(c).motion.floor == 0
    ensures !HasRequests(Advance(c).motion)
  {
  }

  /** Maintenance ignores requests and moves. */
  lemma MaintenanceIsInert(c: Car, floor: int)
    requires c.state == MaintenanceState
    ensures Handle(c, floor) == c && Advance(c) == c
  {
  }

  /** A request a moving car can take joins the set of the sweep it is on. */
  lemma CapableRequestJoinsSweep(c: Car, floor: int, direction: Direction)
    requires c.state == MovingState && CanTake(c, floor, direction)
    ensures Handle(c, floor).state == MovingState
    ensures direction == Up ==> floor in Handle(c, floor).motion.up
    ensures direction == Down ==> floor in Handle(c, floor).motion.down
  {
  }

  /** Repeated moves with no new requests. */
  function Advances(c: Car, n: nat): Car
    decreases n
  {
    if n == 0 then c else Advances(Advance(c), n - 1)
  }

  /** Once idle, a car stays where it is however often it is moved. */
  lemma {:induction false} IdleStaysPut(c: Car, n: nat)
    requires c.state == IdleState
    ensures Advances(c, n) == c
    decreases n
  {
    if n > 0 {
      IdleStaysPut(Advance(c), n - 1);
    }
  }

  /** With no new requests, a moving car comes to rest, with nothing
      pending, within one more move than twice its pending requests. */
  lemma {:induction false} MovingComesToRest(c: Car, n: nat)
    requires c.state == MovingState && n >= 2 * Pending(c.motion) + 1
    ensures Advances(c, n).state == IdleState
    ensures !HasRequests(Advances(c, n).motion)
    decreases n
  {
    var c1 := Advance(c);
    if c1.state == IdleState {
      IdleStaysPut(c1, n - 1);
    } else {
      var c2 := Advance(c1);
      assert Advances(c, n) == Advances(c2, n - 2);
      if c2.state == IdleState {
        IdleStaysPut(c2, n - 2);
      } else {
        assert HasRequests(c.motion);
        TwoStepsServe(c.motion);
        MovingComesToRest(c2, n - 2);
      }
    }
  }
}
