/** The enumerations shared by the elevator, its states and the dispatch
    strategies. */
module ElevatorConstants {

  /** The direction the car is travelling in; `Idle` when it has no sweep. */
  datatype Direction = Up | Down | Idle

  /** What `getStateType` reports for each state object. */
  datatype ElevatorStateType = MovingType | IdleType | MaintenanceType | EmergencyType

  /** The kind of car, fixed at construction. */
  datatype ElevatorType = Passenger | Freight | Express | Vip
}
