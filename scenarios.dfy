/** The reservation flows the system is built to support, run against the
    booking service one call after another. Time is in minutes. */
module Scenarios {
  import opened Wrappers
  import opened TimeSlots
  import opened Bookings
  import opened Service

  /** Two service-generated ids differ whenever their UUIDs do. */
  lemma BookingIdInjective(u: string, v: string)
    ensures BookingIdFor(u) == BookingIdFor(v) ==> u == v
  {
    assert BookingIdFor(u)[4..] == u;
    assert BookingIdFor(v)[4..] == v;
  }

  /** No ACTIVE booking of the room in `bookings`, other than `held`, meets
      `window`. */
  ghost predicate FreeAmong(bookings: map<string, Booking>, roomId: string, window: Slot, held: Booking?)
    reads bookings.Values
  {
    forall id :: id in bookings && bookings[id] != held && bookings[id].roomId == roomId && bookings[id].IsActive() ==>
      !window.Overlaps(bookings[id].slot)
  }

  /** The room has no stored ACTIVE booking, other than `held`, that meets
      `window`. */
  ghost predicate FreeBut(svc: BookingService, roomId: string, window: Slot, held: Booking?)
    reads svc.bookingRepository, svc.bookingRepository.bookings.Values
  {
    FreeAmong(svc.bookingRepository.bookings, roomId, window, held)
  }

  /** A window inside a free window is free. */
  lemma FreeButShrinks(svc: BookingService, roomId: string, outer: Slot, inner: Slot, held: Booking?)
    requires FreeBut(svc, roomId, outer, held)
    requires outer.start <= inner.start && inner.end <= outer.end
    ensures FreeBut(svc, roomId, inner, held)
  {
  }

  /** A window that `held` does not meet is free once `held` is discounted. */
  lemma FreeButReleases(svc: BookingService, roomId: string, window: Slot, held: Booking)
    requires FreeBut(svc, roomId, window, held)
    requires !window.Overlaps(held.slot)
    ensures FreeBut(svc, roomId, window, null)
  {
  }

  /** A request with a known employee and room, both ids non-blank. */
  predicate Bookable(svc: BookingService, employeeId: string, roomId: string)
    reads svc.employeeService.repo, svc.roomService.repo
  {
    && svc.employeeService.EmployeeExists(employeeId) && !IsBlank(employeeId)
    && svc.roomService.RoomExists(roomId) && !IsBlank(roomId)
  }

  /** A request for a free slot is granted and only its booking is added;
      a window the new booking does not meet stays free, and every window
      free before is free apart from the new booking. */
  method BookFree(svc: BookingService, employeeId: string, roomId: string, slot: TimeSlot, now: int, uuid: string,
                  later: Slot)
    returns (r: Result<Booking, ServiceError>)
    requires svc.Valid()
    requires Bookable(svc, employeeId, roomId)
    requires now <= slot.start
    requires FreeBut(svc, roomId, slot, null) && FreeBut(svc, roomId, later, null)
    requires BookingIdFor(uuid) !in svc.bookingRepository.bookings
    modifies svc.bookingRepository
    ensures svc.Valid()
    ensures r.Success? && fresh(r.value) && r.value.id == BookingIdFor(uuid)
    ensures r.value.roomId == roomId && r.value.slot == slot && r.value.IsActive()
    ensures svc.bookingRepository.bookings == old(svc.bookingRepository.bookings)[r.value.id := r.value]
    ensures unchanged(svc.employeeService.repo, svc.roomService.repo)
    ensures FreeBut(svc, roomId, later, r.value)
  {
    ghost var before := svc.bookingRepository.bookings;
    r := svc.BookRoom(employeeId, roomId, slot.start, slot.end, now, uuid);
    var bookings := svc.bookingRepository.bookings;
    forall id | id in bookings && bookings[id] != r.value && bookings[id].roomId == roomId && bookings[id].IsActive()
      ensures !later.Overlaps(bookings[id].slot)
    {
      assert id in before && before[id] == bookings[id];
      assert old(before[id].IsActive());
    }
  }

  /** A request for a slot an ACTIVE booking of the room overlaps is refused,
      and nothing is stored. */
  method BookTaken(svc: BookingService, employeeId: string, roomId: string, slot: TimeSlot, now: int, uuid: string,
                   holder: Booking)
    returns (r: Result<Booking, ServiceError>)
    requires svc.Valid()
    requires Bookable(svc, employeeId, roomId)
    requires now <= slot.start
    requires holder in svc.bookingRepository.bookings.Values && holder.roomId == roomId && holder.IsActive()
    requires slot.Overlaps(holder.slot)
    requires BookingIdFor(uuid) !in svc.bookingRepository.bookings
    modifies svc.bookingRepository
    ensures svc.Valid()
    ensures r == Failure(RoomNotAvailable(roomId, slot))
    ensures unchanged(svc.bookingRepository)
  {
    r := svc.BookRoom(employeeId, roomId, slot.start, slot.end, now, uuid);
  }

  /** Cancelling the one booking that held a window frees the window; a
      second cancellation of it is refused and changes nothing. */
  method CancelHolder(svc: BookingService, holder: Booking, roomId: string, window: Slot)
    returns (cancelled: Result<Booking, ServiceError>, again: Result<Booking, ServiceError>)
    requires svc.Valid()
    requires holder.id in svc.bookingRepository.bookings && svc.bookingRepository.bookings[holder.id] == holder
    requires holder.IsActive()
    requires FreeBut(svc, roomId, window, holder)
    modifies svc.bookingRepository.bookings.Values
    ensures svc.Valid()
    ensures cancelled == Success(holder) && holder.status == Cancelled
    ensures again == Failure(InvalidState(Cancelled))
    ensures FreeBut(svc, roomId, window, null)
    ensures unchanged(svc.bookingRepository)
    ensures unchanged(svc.employeeService.repo, svc.roomService.repo)
  {
    cancelled := svc.CancelBooking(holder.id);
    again := svc.CancelBooking(holder.id);
  }

  /** An hour from `start` is booked; a request half an hour later is refused
      because it overlaps; the hour that starts when the first one ends is
      granted, since back-to-back slots do not overlap. */
  method OverlapThenBackToBack(svc: BookingService, first: string, second: string, roomId: string,
                               start: int, now: int, u1: string, u2: string, u3: string)
    returns (r1: Result<Booking, ServiceError>, r2: Result<Booking, ServiceError>, r3: Result<Booking, ServiceError>)
    requires svc.Valid()
    requires Bookable(svc, first, roomId) && Bookable(svc, second, roomId)
    requires now <= start
    requires FreeBut(svc, roomId, Slot(start, start + 120), null)
    requires u1 != u2 && u1 != u3 && u2 != u3
    requires BookingIdFor(u1) !in svc.bookingRepository.bookings
    requires BookingIdFor(u2) !in svc.bookingRepository.bookings
    requires BookingIdFor(u3) !in svc.bookingRepository.bookings
    modifies svc.bookingRepository
    ensures svc.Valid()
    ensures r1.Success? && r1.value.slot == Slot(start, start + 60) && r1.value.IsActive()
    ensures r2 == Failure(RoomNotAvailable(roomId, Slot(start + 30, start + 90)))
    ensures r3.Success? && r3.value.slot == Slot(start + 60, start + 120) && r3.value.IsActive()
  {
    BookingIdInjective(u1, u2);
    BookingIdInjective(u1, u3);
    var whole, firstHour, overlap, nextHour := Slot(start, start + 120), Slot(start, start + 60), Slot(start + 30, start + 90), Slot(start + 60, start + 120);
    FreeButShrinks(svc, roomId, whole, firstHour, null);
    FreeButShrinks(svc, roomId, whole, nextHour, null);
    r1 := BookFree(svc, first, roomId, firstHour, now, u1, nextHour);
    assert svc.bookingRepository.bookings[r1.value.id] == r1.value;
    r2 := BookTaken(svc, second, roomId, overlap, now, u2, r1.value);
    FreeButReleases(svc, roomId, nextHour, r1.value);
    r3 := BookFree(svc, second, roomId, nextHour, now, u3, nextHour);
  }

  /** A booking is cancelled; cancelling it again is refused with its status
      left CANCELLED; the same slot can then be booked again. */
  method CancelTwiceThenRebook(svc: BookingService, employeeId: string, roomId: string,
                               startTime: int, endTime: int, now: int, u1: string, u2: string)
    returns (booked: Result<Booking, ServiceError>, cancelled: Result<Booking, ServiceError>,
             again: Result<Booking, ServiceError>, rebooked: Result<Booking, ServiceError>)
    requires svc.Valid()
    requires Bookable(svc, employeeId, roomId)
    requires now <= startTime < endTime
    requires FreeBut(svc, roomId, Slot(startTime, endTime), null)
    requires u1 != u2
    requires BookingIdFor(u1) !in svc.bookingRepository.bookings
    requires BookingIdFor(u2) !in svc.bookingRepository.bookings
    modifies svc.bookingRepository, svc.bookingRepository.bookings.Values
    ensures svc.Valid()
    ensures booked.Success? && cancelled == Success(booked.value)
    ensures booked.value.status == Cancelled
    ensures again == Failure(InvalidState(Cancelled))
    ensures rebooked.Success? && rebooked.value.slot == booked.value.slot && rebooked.value.IsActive()
  {
    BookingIdInjective(u1, u2);
    var slot: TimeSlot := Slot(startTime, endTime);
    booked := BookFree(svc, employeeId, roomId, slot, now, u1, slot);
    cancelled, again := CancelHolder(svc, booked.value, roomId, slot);
    rebooked := BookFree(svc, employeeId, roomId, slot, now, u2, slot);
  }
}
