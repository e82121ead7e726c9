# Meeting rooms and elevators, modelled in Dafny

This project models two of the repository's low-level designs and proves
properties about them.

**The meeting-room scheduler.**
- A `TimeSlot` is a half-open interval `[start, end)`. Creating one checks that the slot is non-empty and does not start in the past.
- A `Booking` moves from ACTIVE to CANCELLED or COMPLETED and never leaves those states.
- The three in-memory repositories are:
  - employees;
  - rooms;
  - bookings, with a per-room index and a per-employee index of booking ids.
- The services on top of them create employees and rooms, book a room, cancel a booking, and list bookings and free rooms.

The central property is *no double booking*: in the booking store, no two ACTIVE bookings of one room overlap (`Service.ActiveDisjoint`). Every booking service method keeps it, and `BookRoom` grants a request exactly when the checks of the Java `bookRoom` pass.

**The elevator.**
- A car keeps:
  - its floor and direction;
  - a state object: Idle, Moving, Emergency or Maintenance;
  - two ordered request sets: floors above the car ascending, floors below it descending.
- `processMovement` performs one step of a SCAN-like sweep.
- The state objects decide what `handleRequest` and `move` do.
- Three dispatch strategies choose the car that serves a hall call: first come first served, SCAN, and shortest seek time first.

The pure step functions live in `Motions` and `ElevatorStates`. `Elevators.Elevator` and `StateBehaviour` perform the same steps in place, and each of their methods is proved to match its pure function. Proved properties of the step functions:
- the request sets stay ordered and on their own side of the car;
- a step serves the nearest pending floor in the current direction;
- with no new requests, a moving car comes to rest within `2 * pending + 1` moves;
- Emergency is absorbing.

Modelling choices:
- Time is an `int` number of minutes. The current time is a parameter (`now`) rather than a clock read.
- The UUID behind a generated booking id is also a parameter.
- Java exceptions become `Result`/`Option`/`Outcome` error values.
- Collections that the Java code mutates are `map`/`seq` fields of classes that the methods reassign.
- A `TreeSet<Integer>` is a strictly sorted `seq<int>`.

Modules (one per file):

| module | file |
|---|---|
| `Wrappers` | wrappers.dfy |
| `TimeSlots` | time_slot.dfy |
| `Bookings` | booking.dfy |
| `Entities` | entities.dfy |
| `Repo` | repo.dfy |
| `Service` | service.dfy |
| `Scenarios` | scenarios.dfy |
| `ElevatorConstants` | elevator_constants.dfy |
| `Motions` | motion.dfy |
| `ElevatorStates` | elevator_states.dfy |
| `Elevators` | elevator.dfy |
| `StateBehaviour` | state_behaviour.dfy |
| `Dispatch` | dispatch.dfy |

## Model

| member | source | states |
|---|---|---|
| TimeSlots.NewTimeSlot | MeetingScheduler/TimeSlot.java:11-29 | A slot is created iff start < end and start is not before now; otherwise the error names the first failed check (start after end, start equal to end, start in the past) |
| TimeSlots.OverlapsOrNull | MeetingScheduler/TimeSlot.java:32-39 | A null slot overlaps nothing; otherwise the result is the interval overlap test |
| TimeSlots.OverlapsSymmetric | MeetingScheduler/TimeSlot.java:32-39 | Overlap is symmetric |
| TimeSlots.EndBeforeStartDisjoint | MeetingScheduler/TimeSlot.java:32-39 | A slot ending when or before another starts does not overlap it, in either order (back-to-back slots are compatible) |
| TimeSlots.OverlapsSelf | MeetingScheduler/TimeSlot.java:32-39 | Every valid slot overlaps itself |
| TimeSlots.OverlapsIffSharedInstant | MeetingScheduler/TimeSlot.java:32-39 | Two valid slots overlap exactly when some instant lies in both half-open intervals |
| TimeSlots.EqualsIsStructural | MeetingScheduler/TimeSlot.java:49-56 | Slot equality holds exactly for equal start and end; no slot equals null |
| TimeSlots.DemoAfternoon | MeetingScheduler/MeetingRoomReservationDemo.java:88-116 | 14:00-15:00 and 15:00-16:00 do not overlap; 14:00-15:00 and 14:30-15:30 do |
| Bookings.ValidateBooking | MeetingScheduler/Booking.java:30-43 | A booking is valid iff all three ids are non-blank; otherwise the error names the first blank id in the order booking, employee, room |
| Bookings.TerminalStaysPut | MeetingScheduler/Booking.java:61-77 | From CANCELLED or COMPLETED, no sequence of cancel/complete calls changes the status |
| Bookings.FirstTransitionDecides | MeetingScheduler/Booking.java:61-77 | From ACTIVE, the first cancel or complete fixes the final status for good |
| Bookings.RepeatedTransitions | MeetingScheduler/Booking.java:61-77 | Completing twice is completing once; a second cancel after a successful one fails with the status CANCELLED |
| Bookings.Booking.constructor | MeetingScheduler/Booking.java:20-28 | A booking built from valid ids holds them and its slot, and starts ACTIVE |
| Bookings.Booking.IsActive | MeetingScheduler/Booking.java:79-81 | ACTIVE exactly when neither cancelled nor completed, and exactly when a cancel would succeed |
| Bookings.Booking.IsCancelled | MeetingScheduler/Booking.java:83-85 | A cancelled booking is not completed and cannot be cancelled again |
| Bookings.Booking.IsCompleted | MeetingScheduler/Booking.java:87-89 | A completed booking cannot be cancelled, and completing it again changes nothing |
| Bookings.NewBooking | MeetingScheduler/Booking.java:20-43 | Construction fails exactly when validation reports an error, and with that error; on success the new booking carries the inputs and is ACTIVE |
| Bookings.Booking.Overlaps | MeetingScheduler/Booking.java:52-54 | Only an ACTIVE booking conflicts, and an ACTIVE one conflicts exactly when its slot overlaps the given slot |
| Bookings.Booking.Cancel | MeetingScheduler/Booking.java:61-67 | Cancel succeeds iff the booking was ACTIVE and then makes it CANCELLED; otherwise it reports the current status and changes nothing |
| Bookings.Booking.Complete | MeetingScheduler/Booking.java:73-77 | An ACTIVE booking becomes COMPLETED; any other status is kept |
| Bookings.Booking.Equals | MeetingScheduler/Booking.java:115-121 | Bookings are equal exactly when the other is non-null with the same booking id; equality is reflexive |
| Repo.EmployeeRepository.constructor | MeetingScheduler/repository/Repo.java:16-18 | A new employee store is empty |
| Repo.EmployeeRepository.Save | MeetingScheduler/repository/Repo.java:26-29 | Saving stores the employee under its id, replacing any earlier one, and returns it |
| Repo.EmployeeRepository.FindById | MeetingScheduler/repository/Repo.java:37-39 | Found iff the id is stored, and then the stored employee, whose id is the key |
| Repo.EmployeeRepository.FindAll | MeetingScheduler/repository/Repo.java:46-49 | Lists every stored employee and nothing else, one entry per stored id |
| Repo.EmployeeRepository.Exists | MeetingScheduler/repository/Repo.java:57-59 | Exists iff a lookup finds the employee |
| Repo.EmployeeRepository.DeleteById | MeetingScheduler/repository/Repo.java:67-69 | Removes exactly that id; reports whether it was present |
| Repo.MeetingRoomRepository.constructor | MeetingScheduler/repository/Repo.java:79-81 | A new room store is empty |
| Repo.MeetingRoomRepository.Save | MeetingScheduler/repository/Repo.java:89-92 | Saving stores the room under its id, replacing any earlier one, and returns it |
| Repo.MeetingRoomRepository.FindById | MeetingScheduler/repository/Repo.java:100-102 | Found iff the id is stored, and then the stored room, whose id is the key |
| Repo.MeetingRoomRepository.FindAll | MeetingScheduler/repository/Repo.java:109-112 | Lists every stored room and nothing else, once each, with distinct room ids |
| Repo.MeetingRoomRepository.FindByMinCapacity | MeetingScheduler/repository/Repo.java:120-124 | Lists exactly the stored rooms holding at least the given capacity, with distinct ids |
| Repo.WithMinCapacity | MeetingScheduler/repository/Repo.java:120-124 | The capacity filter keeps exactly the rooms at or above the minimum and keeps distinct ids distinct |
| Repo.MeetingRoomRepository.Exists | MeetingScheduler/repository/Repo.java:144-146 | Exists iff a lookup finds the room |
| Repo.MeetingRoomRepository.DeleteById | MeetingScheduler/repository/Repo.java:154-156 | Removes exactly that id; reports whether it was present |
| Repo.BookingRepository.constructor | MeetingScheduler/repository/Repo.java:168-172 | A new booking store and both its indices are empty |
| Repo.BookingRepository.Save | MeetingScheduler/repository/Repo.java:181-195 | Stores the booking under its id and appends the id to its room's and its employee's index lists, keeping the indices exact; the booking is then found by id, by room and by employee |
| Repo.InsertKeepsIndexExact | MeetingScheduler/repository/Repo.java:181-195 | Appending a new booking's id under its key keeps an index exact: every listed id resolves to a booking with that key, no id is listed twice, and every stored booking is listed |
| Repo.BookingRepository.FindById | MeetingScheduler/repository/Repo.java:203-205 | Found iff the id is stored, and then the stored booking, whose id is the key |
| Repo.BookingRepository.FindAll | MeetingScheduler/repository/Repo.java:212-215 | Lists every stored booking and nothing else, one entry per stored id |
| Repo.Resolve | MeetingScheduler/repository/Repo.java:223-229 | Mapping ids to bookings drops ids with no booking and keeps every stored one; when all ids resolve, it keeps their order and length |
| Repo.BookingRepository.FindByRoomId | MeetingScheduler/repository/Repo.java:223-229 | Lists the stored bookings whose ids are indexed under the room, and all of them; in a valid store every listed id resolves, in index order, and the list holds exactly the stored bookings of that room |
| Repo.ResolveIndexed | MeetingScheduler/repository/Repo.java:223-229 | Resolving an exact index under a key gives exactly the stored bookings with that key, one per listed id |
| Repo.ActiveOnly | MeetingScheduler/repository/Repo.java:237-241 | The ACTIVE filter keeps exactly the ACTIVE bookings of its input, each as many times as it occurs there, and nothing else |
| Repo.ActiveOnlyAppend | MeetingScheduler/repository/Repo.java:237-241 | Filtering a concatenation is the concatenation of the filtered parts, so the filter keeps the input's order |
| Repo.BookingRepository.FindActiveBookingsByRoomId | MeetingScheduler/repository/Repo.java:237-241 | The ACTIVE sub-list of the room's bookings: each ACTIVE booking as often as there and, by ActiveOnlyAppend, in index order; in a valid store exactly the stored ACTIVE bookings of the room |
| Repo.BookingRepository.FindByEmployeeId | MeetingScheduler/repository/Repo.java:249-255 | Lists the stored bookings whose ids are indexed under the employee, and all of them; in a valid store every listed id resolves, in index order, and the list holds exactly the stored bookings of that employee |
| Repo.BookingRepository.FindActiveBookingsByEmployeeId | MeetingScheduler/repository/Repo.java:263-267 | The ACTIVE sub-list of the employee's bookings: each ACTIVE booking as often as there and, by ActiveOnlyAppend, in index order; in a valid store exactly the stored ACTIVE bookings of the employee |
| Repo.OverlappingOnly | MeetingScheduler/repository/Repo.java:277-281 | The overlap filter keeps exactly the bookings that conflict with the slot, each as many times as it occurs in the input |
| Repo.OverlappingOnlyAppend | MeetingScheduler/repository/Repo.java:277-281 | Filtering a concatenation is the concatenation of the filtered parts, so the filter keeps the input's order |
| Repo.BookingRepository.FindOverlappingBookings | MeetingScheduler/repository/Repo.java:277-281 | The ACTIVE bookings of the room whose slots overlap the requested one; in a valid store, a booking is reported iff it is stored, of that room, ACTIVE and overlapping |
| Repo.BookingRepository.IsRoomAvailable | MeetingScheduler/repository/Repo.java:290-292 | Available iff no overlapping ACTIVE booking is reported; in a valid store, iff no stored ACTIVE booking of the room overlaps the slot |
| Repo.BookingRepository.DeleteById | MeetingScheduler/repository/Repo.java:300-311 | Removes the booking and one occurrence of its id from its room's and its employee's index lists, and keeps the indices exact; an unknown id changes nothing |
| Repo.RemoveFirst | MeetingScheduler/repository/Repo.java:300-311 | Removing an absent id changes nothing, and removal adds no ids |
| Repo.RemoveFirstMultiset | MeetingScheduler/repository/Repo.java:300-311 | `List.remove(Object)` drops exactly one occurrence of the id |
| Repo.RemoveFirstNoDuplicates | MeetingScheduler/repository/Repo.java:300-311 | On a list without duplicates, removal keeps it duplicate-free and drops exactly that id |
| Repo.NoDuplicatesCount | MeetingScheduler/repository/Repo.java:300-311 | In a list without duplicates, every id occurs at most once |
| Repo.DeleteKeepsIndexExact | MeetingScheduler/repository/Repo.java:300-311 | Deleting a stored booking and its id from its key's list keeps an index exact |
| Repo.DeleteKeepsSound | MeetingScheduler/repository/Repo.java:300-311 | After the deletion, every listed id still resolves to a booking with that key |
| Repo.DeleteKeepsComplete | MeetingScheduler/repository/Repo.java:300-311 | After the deletion, every remaining booking is still listed under its key |
| Service.InsertKeepsActiveDisjoint | MeetingScheduler/service/Service.java:230-241 | Adding a booking that overlaps no ACTIVE booking of its room keeps the store free of double bookings |
| Service.ActiveDisjointFramed | MeetingScheduler/service/Service.java:295-308 | A store with no double bookings keeps that property while none of its bookings changes |
| Service.BookingIdFor | MeetingScheduler/service/Service.java:384-386 | A generated booking id is never blank |
| Service.EmployeeService.constructor | MeetingScheduler/service/Service.java:29-31 | The service works on the given repository |
| Service.EmployeeService.CreateEmployee | MeetingScheduler/service/Service.java:41-48 | A known id is refused as already existing and nothing changes; otherwise the employee is stored under its id and returned |
| Service.EmployeeService.EmployeeExists | MeetingScheduler/service/Service.java:77-79 | True iff the id is stored |
| Service.MeetingRoomService.constructor | MeetingScheduler/service/Service.java:90-92 | The service works on the given repository |
| Service.MeetingRoomService.CreateRoom | MeetingScheduler/service/Service.java:102-110 | A known id is refused as already existing and nothing changes; otherwise the room is stored under its id and returned |
| Service.MeetingRoomService.GetAllRooms | MeetingScheduler/service/Service.java:129-131 | Every stored room, once each, with distinct ids |
| Service.MeetingRoomService.RoomExists | MeetingScheduler/service/Service.java:159-161 | True iff the id is stored |
| Service.BookingService.constructor | MeetingScheduler/service/Service.java:178-186 | The service works on the given repository and services |
| Service.BookingService.Admit | MeetingScheduler/service/Service.java:214-235 | The checks of a booking request, in the order of the Java `bookRoom`: unknown employee, unknown room, invalid slot, overlap with an ACTIVE booking of the room; it passes iff none applies, and then yields the requested slot |
| Service.BookingService.BookRoom | MeetingScheduler/service/Service.java:208-246 | A refused request changes nothing and reports the first failed check; an admitted one stores a fresh ACTIVE booking with the generated id, that employee, room and slot, and nothing else; no double booking before or after |
| Service.BookingService.Store | MeetingScheduler/service/Service.java:238-241 | Saving a booking that conflicts with no ACTIVE booking of its room adds exactly that booking and keeps the store free of double bookings |
| Service.BookingService.CancelBooking | MeetingScheduler/service/Service.java:295-308 | An unknown id is NotFound; a known booking is cancelled iff it was ACTIVE, else refused with its status; no other booking's status changes, and the store stays free of double bookings |
| Service.BookingService.AvailableAmong | MeetingScheduler/service/Service.java:256-285 | Keeps exactly the given rooms that are free for the slot, and keeps distinct room ids distinct |
| Service.BookingService.GetAvailableRooms | MeetingScheduler/service/Service.java:256-266 | An invalid slot gives the slot's error; otherwise exactly the stored rooms that no stored ACTIVE booking of theirs overlaps, once each |
| Service.BookingService.ListBookingsForRoom | MeetingScheduler/service/Service.java:316-322 | Unknown room is NotFound; otherwise the room's bookings, which in a valid store are exactly its stored bookings |
| Service.BookingService.ListActiveBookingsForRoom | MeetingScheduler/service/Service.java:330-336 | Unknown room is NotFound; otherwise the room's ACTIVE bookings, which in a valid store are exactly its stored ACTIVE bookings |
| Service.BookingService.ListBookingsForEmployee | MeetingScheduler/service/Service.java:344-350 | Unknown employee is NotFound; otherwise the employee's bookings, which in a valid store are exactly their stored bookings |
| Service.BookingService.ListActiveBookingsForEmployee | MeetingScheduler/service/Service.java:358-364 | Unknown employee is NotFound; otherwise the employee's ACTIVE bookings, which in a valid store are exactly their stored ACTIVE bookings |
| Service.BookingService.GetBooking | MeetingScheduler/service/Service.java:373-376 | Found iff the id is stored, and then the stored booking; else NotFound |
| Scenarios.BookingIdInjective | MeetingScheduler/service/Service.java:384-386 | Distinct UUIDs give distinct booking ids |
| Scenarios.FreeButShrinks | MeetingScheduler/TimeSlot.java:32-39 | A window inside a free window is free |
| Scenarios.FreeButReleases | MeetingScheduler/TimeSlot.java:32-39 | A window that the only conflicting candidate does not meet is free |
| Scenarios.BookFree | MeetingScheduler/MeetingRoomReservationDemo.java:88-116 | Booking a free slot for a known employee and room succeeds and adds exactly that ACTIVE booking |
| Scenarios.BookTaken | MeetingScheduler/MeetingRoomReservationDemo.java:88-116 | Booking a slot that overlaps an ACTIVE booking of the room is refused as not available, and the store is unchanged |
| Scenarios.CancelHolder | MeetingScheduler/MeetingRoomReservationDemo.java:143-166 | Cancelling the holder succeeds, a second cancel is refused with status CANCELLED, and the holder's window is then free |
| Scenarios.OverlapThenBackToBack | MeetingScheduler/MeetingRoomReservationDemo.java:88-116 | An hour is booked; a half-hour-later request is refused; the hour that starts as the first ends is granted |
| Scenarios.CancelTwiceThenRebook | MeetingScheduler/MeetingRoomReservationDemo.java:143-166 | Book, cancel, cancel again (refused), then the same slot is granted again |
| Motions.Insert | ElevatorSytemDesign/elevator/Elevator.java:79-85 | `TreeSet.add`: the result holds exactly the old elements and the new one |
| Motions.InsertSorted | ElevatorSytemDesign/elevator/Elevator.java:79-85 | Adding to an ordered set keeps it strictly ordered |
| Motions.InsertPresent | ElevatorSytemDesign/elevator/Elevator.java:79-85 | Adding an element already present leaves an ordered set unchanged |
| Motions.AddDestinationTo | ElevatorSytemDesign/elevator/Elevator.java:79-85 | Floor and direction are kept; the pending floors become the old ones plus the requested floor unless it is the current floor |
| Motions.AddDestinationKeepsValid | ElevatorSytemDesign/elevator/Elevator.java:79-85 | After a request, the up set is still ascending and above the car, and the down set descending and below it |
| Motions.AddDestinationIdempotent | ElevatorSytemDesign/elevator/Elevator.java:79-85 | Requesting the same floor twice is the same as once |
| Motions.Step | ElevatorSytemDesign/elevator/Elevator.java:102-134 | A step never adds a pending floor and never grows a set |
| Motions.StepKeepsValid | ElevatorSytemDesign/elevator/Elevator.java:102-134 | A step keeps both sets ordered and on their side of the car |
| Motions.StepServesNearest | ElevatorSytemDesign/elevator/Elevator.java:102-134 | With floors pending in the current direction, the car moves to the nearest one in that direction, which is the only floor removed; then it keeps its direction, turns if only the other set has floors, or goes idle |
| Motions.StepOnlyTurns | ElevatorSytemDesign/elevator/Elevator.java:102-134 | With nothing pending in the current direction, a step does not move the car; it only points it up if the up set has floors, else down if the down set has floors |
| Motions.TwoStepsServe | ElevatorSytemDesign/elevator/Elevator.java:102-134 | While requests are pending, two steps serve at least one |
| Motions.StepsDrain | ElevatorSytemDesign/elevator/Elevator.java:102-134 | With no new requests, twice as many steps as pending floors serve them all |
| Motions.StepsKeepEmpty | ElevatorSytemDesign/elevator/Elevator.java:102-134 | A car with nothing pending gains nothing by stepping |
| Motions.Grounded | ElevatorSytemDesign/elevator/Elevator.java:164-170 | The car is at floor 0 with nothing pending and its direction unchanged |
| ElevatorStates.ElevatorState.GetStateType | ElevatorSytemDesign/state/MovingState.java:28-30 | Each state object reports its own type, and only it does |
| ElevatorStates.ElevatorState.CanAcceptRequest | ElevatorSytemDesign/state/IdleState.java:20-22 | `canAcceptRequest` of the four state classes: a state accepts requests iff its type is IDLE or MOVING (MovingState.java:23-25 true, EmergencyState.java:19-21 and MaintenanceState.java:18-20 false) |
| ElevatorStates.Handle | ElevatorSytemDesign/elevator/Elevator.java:93-95 | A state that accepts requests ends Moving, with the floor recorded; Emergency and Maintenance leave the car unchanged |
| ElevatorStates.Advance | ElevatorSytemDesign/elevator/Elevator.java:97-99 | A move keeps the state, except that Moving may become Idle; a Moving car takes one sweep step |
| ElevatorStates.CanTake | ElevatorSytemDesign/elevator/Elevator.java:177-195 | Never in Emergency or Maintenance; always when Idle; when Moving, iff the call is in the car's direction and strictly ahead of it |
| ElevatorStates.TransitionsKeepValid | ElevatorSytemDesign/elevator/Elevator.java:93-99 | No request and no move breaks the order or the side of the pending sets |
| ElevatorStates.IdleMovesOnAnyRequest | ElevatorSytemDesign/state/IdleState.java:8-12 | An idle car becomes Moving on every request, even for its own floor, which records nothing |
| ElevatorStates.IdleStaysPut | ElevatorSytemDesign/state/IdleState.java:15-17 | Any number of moves leaves an idle car as it is |
| ElevatorStates.MovingSettlesWhenDone | ElevatorSytemDesign/state/MovingState.java:14-20 | After a move, a Moving car is Idle exactly when nothing is pending |
| ElevatorStates.MovingComesToRest | ElevatorSytemDesign/state/MovingState.java:14-20 | With no new requests, a Moving car is Idle with nothing pending after 2 x pending + 1 moves |
| ElevatorStates.CapableRequestJoinsSweep | ElevatorSytemDesign/state/MovingState.java:8-11 | A call a Moving car can take joins the request set of the sweep it is on |
| ElevatorStates.EmergencyIsAbsorbing | ElevatorSytemDesign/state/EmergencyState.java:8-16 | Emergency ignores requests, a move keeps it in Emergency at floor 0 with nothing pending |
| ElevatorStates.MaintenanceIsInert | ElevatorSytemDesign/state/MaintenanceState.java:8-15 | Maintenance ignores requests and moves |
| Elevators.Elevator.constructor | ElevatorSytemDesign/elevator/Elevator.java:33-50 | A new car is idle at floor 0 with nothing pending |
| Elevators.Elevator.AddDestination | ElevatorSytemDesign/elevator/Elevator.java:79-85 | The car's movement data becomes AddDestinationTo of the old data; the state is kept and the sets stay ordered |
| Elevators.Elevator.SetState | ElevatorSytemDesign/elevator/Elevator.java:88-91 | Replaces the state object and nothing else |
| Elevators.Elevator.MoveToFloor | ElevatorSytemDesign/elevator/Elevator.java:136-145 | Changes the floor and nothing else |
| Elevators.Elevator.ProcessMovement | ElevatorSytemDesign/elevator/Elevator.java:102-134 | The movement data becomes Step of the old data; the state is kept and the sets stay ordered |
| Elevators.Elevator.EmergencyMoveToGround | ElevatorSytemDesign/elevator/Elevator.java:164-170 | The movement data becomes Grounded of the old data |
| Elevators.Elevator.TriggerEmergency | ElevatorSytemDesign/elevator/Elevator.java:172-175 | The car is in Emergency at floor 0 with nothing pending, direction kept |
| Elevators.Elevator.CanTakeRequest | ElevatorSytemDesign/elevator/Elevator.java:177-195 | Never in Emergency or Maintenance; always when Idle; when Moving, iff the call is in the car's direction and strictly ahead of its floor |
| Elevators.Elevator.GetDistanceFromFloor | ElevatorSytemDesign/elevator/Elevator.java:197-199 | The absolute difference between the car's floor and the given one |
| Elevators.Elevator.HasRequests | ElevatorSytemDesign/elevator/Elevator.java:202-204 | True iff some floor is pending |
| Elevators.Elevator.GetStateType | ElevatorSytemDesign/elevator/Elevator.java:219-221 | The car reports the type of its current state object, and each type belongs to exactly one state |
| StateBehaviour.IdleHandleRequest | ElevatorSytemDesign/state/IdleState.java:8-12 | The floor is recorded and the car is Moving |
| StateBehaviour.MovingHandleRequest | ElevatorSytemDesign/state/MovingState.java:8-11 | The floor is recorded and the state kept |
| StateBehaviour.MovingMove | ElevatorSytemDesign/state/MovingState.java:14-20 | One sweep step, then Idle iff nothing is left |
| StateBehaviour.EmergencyMove | ElevatorSytemDesign/state/EmergencyState.java:13-16 | The car goes to floor 0 and drops every request |
| StateBehaviour.HandleRequest | ElevatorSytemDesign/elevator/Elevator.java:93-95 | The car after the call is Handle of the car before it |
| StateBehaviour.Move | ElevatorSytemDesign/elevator/Elevator.java:97-99 | The car after the call is Advance of the car before it |
| Dispatch.FirstIdleIndex | ElevatorSytemDesign/strategy/FCFSStrategy.java:11-18 | The index of the first idle car, or -1 exactly when no car is idle |
| Dispatch.FindBestFcfs | ElevatorSytemDesign/strategy/FCFSStrategy.java:11-18 | None iff there is no car; else the first idle car, or the first car when none is idle |
| Dispatch.FindBestScan | ElevatorSytemDesign/strategy/SCANStrategy.java:11-34 | None iff there is no car; the nearest car that can take the call, the first among ties; when none can, what FCFS chooses |
| Dispatch.FindBestSstf | ElevatorSytemDesign/strategy/ShortestSeekTimeFirstStrategy.java:11-27 | None iff there is no car; the nearest car that can take the call, the first among ties; when none can, the first car |
| Dispatch.NearestCapableUnique | ElevatorSytemDesign/strategy/ShortestSeekTimeFirstStrategy.java:11-27 | The nearest capable car, first among ties, is unique, so SCAN and SSTF agree whenever some car can take the call |
| Dispatch.IdleFallbackFindsNone | ElevatorSytemDesign/strategy/SCANStrategy.java:26-33 | When no car can take the call, no car is idle, so SCAN's idle search falls through to the first car |

## Left out

- Locks, `synchronized` blocks and thread safety: the model is sequential.
  - `ConcurrentHashMap` and the per-room read/write locks become plain maps.
  - The concurrent-booking demo shows at most one winner; that matches `BookRoom` here, because calls run one at a time.
- The wall clock and `UUID.randomUUID()` are parameters (`now`, `uuid`).
- `LocalDateTime` is an integer count of minutes.
- Booking's `createdAt` timestamp is not modelled.
- `toString`, `hashCode`, logging and printing are not modelled.
- Exception classes become the `ServiceError`, `SlotError` and `BookingError` values.
  - `createEmployee` and `createRoom` throw an invalid-booking exception for a duplicate id; here that is `AlreadyExists`.
- The `BookingStatus` enum is not among the modelled files. It is taken as ACTIVE, CANCELLED and COMPLETED, as `Booking.java` uses them.
- Field validation inside the `Employee` and `MeetingRoom` constructors is not modelled: those files are not part of this model. They are plain value records here.
- `MeetingRoomRepository.findByLocation` and `MeetingRoomService.getRoomsByLocation`: they compare with `equalsIgnoreCase`. Case folding is outside the model.
- Not modelled separately, because each only delegates to a repository operation that is modelled:
  - `EmployeeService.getEmployee`;
  - `EmployeeService.getAllEmployees`;
  - `MeetingRoomService.getRoom`;
  - `MeetingRoomService.getRoomsByCapacity`;
  - `BookingService.getAllBookings`.
- The private `BookingService.isRoomAvailable` only takes a lock around `BookingRepository.isRoomAvailable`. It is folded into `AvailableAmong`.
- The order of `findAll`/`getAllRooms`/`getAvailableRooms` is left open, because a `ConcurrentHashMap` has no defined iteration order. The lists are specified by membership and size.
- Repo.BookingRepository.Save: requires a booking id that is not yet stored.
  - Ids come from fresh UUIDs. `BookRoom` requires the generated id to be fresh; it does not check it.
  - The Java `save` of an existing id would list the id twice in the indices; that is not modelled.
- Null arguments are not modelled: Dafny's types rule them out.
  - This covers the null checks on the ids and the slot in `Booking.java:30-41` and on start and end in `TimeSlot.java:18`.
  - `ValidateBooking` therefore tests only for blank ids.
- The elevator's side features are not modelled:
  - door state and `openDoors`/`closeDoors`;
  - observers (`attach`/`detach`/notify) and floor displays;
  - `Thread.sleep` travel time;
  - the movement templates' `processFloorStop`.
- Also not modelled on the elevator side: `ElevatorSystem`, `ElevatorController`, the builder, the factory, the decorators and request commands. They are wiring around the modelled car and strategies.
- Elevators.Elevator.MoveToFloor: only the floor change is modelled. The delay and the floor-arrival notices are left out.
- Dispatch.FindBestScan and Dispatch.FindBestSstf:
  - The Java `Integer.MAX_VALUE` start distance is replaced by a "nothing found yet" marker.
  - In Java, a capable car at distance exactly `Integer.MAX_VALUE` is never chosen by the strict comparison. Here it is, and `Dispatch.IdleFallbackFindsNone` holds only under that reading.
  - Integer overflow of `Math.abs` is not modelled; floors are unbounded integers.
- Java `int` overflow elsewhere (capacities, floors) is not modelled.
- The Uber and tic-tac-toe designs in the same repository are not part of this model.

## Findings

Nothing here contradicts the Java code. One note, which holds for distances below `Integer.MAX_VALUE` (see the `Dispatch.FindBestScan` line under Left out):
- In SCAN, the second loop searches for an idle car after no car could take the call.
- `Dispatch.IdleFallbackFindsNone` proves that, in this model, the search can never succeed, because an idle car can take every call.
- So SCAN's fallback returns the first car.
- The exception is a distance of exactly `Integer.MAX_VALUE` (`SCANStrategy.java:13,18`). The strict comparison with the sentinel then rejects even a capable idle car, and the idle search does find it. The unbounded integers of this model do not capture that case.
- This is dead code for realistic floors, not a wrong result, so there is no findings table.
