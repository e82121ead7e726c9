/** A reservation of one room by one employee for one time slot. Identity,
    employee, room and slot never change; the status moves one way only,
    from ACTIVE to CANCELLED or to COMPLETED. */
module Bookings {
  import opened Wrappers
  import opened TimeSlots

  datatype BookingStatus = Active | Cancelled | Completed

  datatype BookingError =
    | BlankBookingId
    | BlankEmployeeId
    | BlankRoomId
    | NotActive(current: BookingStatus)   // cancelling a booking that is no longer ACTIVE

  /** Java's `s.trim().isEmpty()`: trim drops every character up to U+0020
      from both ends, so a string is blank when it has only such characters. */
  predicate IsBlank(s: string)
  {
    forall i :: 0 <= i < |s| ==> s[i] <= ' '
  }

  /** The constructor's guards, in the order of `Booking.java`. */
  function ValidateBooking(bookingId: string, employeeId: string, roomId: string): (r: Option<BookingError>)
    ensures r.None? <==> !IsBlank(bookingId) && !IsBlank(employeeId) && !IsBlank(roomId)
    ensures IsBlank(bookingId) ==> r == Some(BlankBookingId)
    ensures !IsBlank(bookingId) && IsBlank(employeeId) ==> r == Some(BlankEmployeeId)
    ensures !IsBlank(bookingId) && !IsBlank(employeeId) && IsBlank(roomId) ==> r == Some(BlankRoomId)
  {
    if IsBlank(bookingId) then Some(BlankBookingId)
    else if IsBlank(employeeId) then Some(BlankEmployeeId)
    else if IsBlank(roomId) then Some(BlankRoomId)
    else None
  }

  /** The status `cancel` leaves, or the failure it reports. */
  function CancelStatus(s: BookingStatus): Result<BookingStatus, BookingError>
  {
    if s == Active then Success(Cancelled) else Failure(NotActive(s))
  }

  /** The status `complete` leaves; it never fails. */
  function CompleteStatus(s: BookingStatus): BookingStatus
  {
    if s == Active then Completed else s
  }

  /** A lifecycle operation, for reasoning about histories. */
  datatype Transition = CancelOp | CompleteOp

  /** The status after applying `ops` in order; a failed cancel leaves the
      status as it was. */
  function Run(s: BookingStatus, ops: seq<Transition>): BookingStatus
    decreases |ops|
  {
    if ops == [] then s
    else
      var next := match ops[0]
        case CancelOp => (match CancelStatus(s) case Success(t) => t case Failure(_) => s)
        case CompleteOp => CompleteStatus(s);
      Run(next, ops[1..])
  }

  /** CANCELLED and COMPLETED are terminal: no history leaves them. */
  lemma {:induction false} TerminalStaysPut(s: BookingStatus, ops: seq<Transition>)
    requires s != Active
    ensures Run(s, ops) == s
    decreases |ops|
  {
    if ops != [] {
      TerminalStaysPut(s, ops[1..]);
    }
  }

  /** From ACTIVE, the first operation decides the final status for good: a
      cancel-first history ends CANCELLED, a complete-first one COMPLETED, and
      only the empty history stays ACTIVE. */
  lemma {:induction false} FirstTransitionDecides(ops: seq<Transition>)
    ensures ops == [] ==> Run(Active, ops) == Active
    ensures ops != [] && ops[0] == CancelOp ==> Run(Active, ops) == Cancelled
    ensures ops != [] && ops[0] == CompleteOp ==> Run(Active, ops) == Completed
  {
    if ops != [] {
      var next := if ops[0] == CancelOp then Cancelled else Completed;
      TerminalStaysPut(next, ops[1..]);
    }
  }

  /** `complete` is idempotent, and a second `cancel` always fails and changes
      nothing. */
  lemma RepeatedTransitions(s: BookingStatus)
    ensures CompleteStatus(CompleteStatus(s)) == CompleteStatus(s)
    ensures CancelStatus(s).Success? ==> CancelStatus(CancelStatus(s).value) == Failure(NotActive(Cancelled))
  {
  }

  class Booking {
    const id: string
    const employeeId: string
    const roomId: string
    const slot: TimeSlot
    var status: BookingStatus

    /** A new booking is ACTIVE. The guards of the Java constructor are
        checked by `NewBooking` before this is called. */
    constructor (id: string, employeeId: string, roomId: string, slot: TimeSlot)
      requires ValidateBooking(id, employeeId, roomId).None?
      ensures this.id == id && this.employeeId == employeeId && this.roomId == roomId
      ensures this.slot == slot && status == Active
    {
      this.id := id;
      this.employeeId := employeeId;
      this.roomId := roomId;
      this.slot := slot;
      status := Active;
    }

    /** ACTIVE exactly when neither cancelled nor completed, and exactly
        when a cancel would succeed. */
    function IsActive(): (r: bool)
      reads this
      ensures r <==> !IsCancelled() && !IsCompleted()
      ensures r <==> CancelStatus(status).Success?
    {
      status == Active
    }

    /** A cancelled booking is not completed and cannot be cancelled again. */
    function IsCancelled(): (r: bool)
      reads this
      ensures r ==> !IsCompleted() && CancelStatus(status).Failure?
    {
      status == Cancelled
    }

    /** A completed booking cannot be cancelled, and completing it again
        changes nothing. */
    function IsCompleted(): (r: bool)
      reads this
      ensures r ==> CancelStatus(status).Failure? && CompleteStatus(status) == status
    {
      status == Completed
    }

    /** Only an ACTIVE booking can conflict with a slot. */
    function Overlaps(other: TimeSlot): (r: bool)
      reads this
      ensures r ==> IsActive()
      ensures IsActive() ==> (r <==> other.Overlaps(slot))
    {
      IsActive() && slot.Overlaps(other)
    }

    /** ACTIVE becomes CANCELLED; any other status makes the call fail and
        stay as it is. */
    method Cancel() returns (r: Outcome<BookingError>)
      modifies this
      ensures r.Pass? <==> old(status) == Active
      ensures r.Fail? ==> r.error == NotActive(old(status))
      ensures status == (if r.Pass? then CancelStatus(old(status)).value else old(status))
    {
      if !IsActive() {
        return Fail(NotActive(status));
      }
      status := Cancelled;
      r := Pass;
    }

    /** ACTIVE becomes COMPLETED; otherwise nothing happens. */
    method Complete()
      modifies this
      ensures status == CompleteStatus(old(status))
    {
      if IsActive() {
        status := Completed;
      }
    }

    /** Bookings are equal when their ids are. */
    function Equals(other: Booking?): (r: bool)
      ensures other == this ==> r
      ensures r <==> other != null && other.id == id
    {
      other == this || (other != null && id == other.id)
    }
  }

  /** The Java constructor: the guards, then a fresh ACTIVE booking. */
  method NewBooking(id: string, employeeId: string, roomId: string, slot: TimeSlot)
    returns (r: Result<Booking, BookingError>)
    ensures r.Failure? <==> ValidateBooking(id, employeeId, roomId).Some?
    ensures r.Failure? ==> r.error == ValidateBooking(id, employeeId, roomId).value
    ensures r.Success? ==> fresh(r.value) && r.value.status == Active
    ensures r.Success? ==> r.value.id == id && r.value.employeeId == employeeId
    ensures r.Success? ==> r.value.roomId == roomId && r.value.slot == slot
  {
    var err := ValidateBooking(id, employeeId, roomId);
    if err.Some? {
      return Failure(err.value);
    }
    var b := new Booking(id, employeeId, roomId, slot);
    r := Success(b);
  }
}
