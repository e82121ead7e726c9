/** The reservation services. `BookingService.BookRoom` is a check-then-insert
    on one room, and `CancelBooking` a status change; the Java service runs both
    under the room's write lock, so each call here is one atomic step. The
    invariant they keep: within each room, the ACTIVE bookings are pairwise
    non-overlapping. */
module Service {
  import opened Wrappers
  import opened TimeSlots
  import opened Bookings
  import opened Entities
  import opened Repo

  datatype EntityKind = EmployeeEntity | RoomEntity | BookingEntity

  datatype ServiceError =
    | NotFound(kind: EntityKind, id: string)
    | AlreadyExists(kind: EntityKind, id: string)
    | InvalidSlot(slotError: SlotError)
    | InvalidBooking(bookingError: BookingError)
    | InvalidState(current: BookingStatus)
    | RoomNotAvailable(roomId: string, slot: TimeSlot)

  /** Stored bookings of one room that are both ACTIVE never overlap. */
  ghost predicate ActiveDisjoint(bookings: map<string, Booking>)
    reads bookings.Values
  {
    forall i, j ::
      i in bookings && j in bookings && i != j &&
      bookings[i].roomId == bookings[j].roomId &&
      bookings[i].IsActive() && bookings[j].IsActive()
      ==> !bookings[i].slot.Overlaps(bookings[j].slot)
  }

  /** Adding an ACTIVE booking that meets no ACTIVE booking of its room keeps
      the rooms free of double bookings. */
  lemma InsertKeepsActiveDisjoint(bookings: map<string, Booking>, b: Booking)
    requires ActiveDisjoint(bookings)
    requires b.id !in bookings && b !in bookings.Values
    requires forall x :: x in bookings.Values && x.roomId == b.roomId && x.IsActive() ==> !b.slot.Overlaps(x.slot)
    ensures ActiveDisjoint(bookings[b.id := b])
  {
    var bookings' := bookings[b.id := b];
    forall i, j |
      i in bookings' && j in bookings' && i != j &&
      bookings'[i].roomId == bookings'[j].roomId &&
      bookings'[i].IsActive() && bookings'[j].IsActive()
      ensures !bookings'[i].slot.Overlaps(bookings'[j].slot)
    {
      if i == b.id {
        assert bookings'[j] in bookings.Values;
      } else if j == b.id {
        assert bookings'[i] in bookings.Values;
      }
    }
  }

  /** Only the statuses matter: while no stored booking changes, neither
      does the invariant. */
  twostate lemma ActiveDisjointFramed(bookings: map<string, Booking>)
    requires old(ActiveDisjoint(bookings))
    requires forall b :: b in bookings.Values ==> old(allocated(b)) && unchanged(b)
    ensures ActiveDisjoint(bookings)
  {
  }

  /** The generated id: a fixed prefix and a random UUID. */
  function BookingIdFor(uuid: string): (id: string)
    ensures !IsBlank(id)
  {
    assert ("BKG-" + uuid)[0] == 'B';
    "BKG-" + uuid
  }

  class EmployeeService {
    const repo: EmployeeRepository

    constructor (repo: EmployeeRepository)
      ensures this.repo == repo
    {
      this.repo := repo;
    }

    /** Refuses an id already taken; otherwise stores the new employee. */
    method CreateEmployee(employeeId: string, name: string, email: string) returns (r: Result<Employee, ServiceError>)
      requires repo.Valid()
      modifies repo
      ensures repo.Valid()
      ensures old(employeeId in repo.employees) ==>
                r == Failure(AlreadyExists(EmployeeEntity, employeeId)) && repo.employees == old(repo.employees)
      ensures old(employeeId !in repo.employees) ==>
                r == Success(Employee(employeeId, name, email)) &&
                repo.employees == old(repo.employees)[employeeId := r.value]
    {
      if repo.Exists(employeeId) {
        return Failure(AlreadyExists(EmployeeEntity, employeeId));
      }
      var saved := repo.Save(Employee(employeeId, name, email));
      r := Success(saved);
    }

    function EmployeeExists(employeeId: string): (r: bool)
      reads repo
      ensures r <==> employeeId in repo.employees
    {
      repo.Exists(employeeId)
    }
  }

  class MeetingRoomService {
    const repo: MeetingRoomRepository

    constructor (repo: MeetingRoomRepository)
      ensures this.repo == repo
    {
      this.repo := repo;
    }

    /** Refuses an id already taken; otherwise stores the new room. */
    method CreateRoom(roomId: string, name: string, capacity: int, location: string) returns (r: Result<MeetingRoom, ServiceError>)
      requires repo.Valid()
      modifies repo
      ensures repo.Valid()
      ensures old(roomId in repo.rooms) ==>
                r == Failure(AlreadyExists(RoomEntity, roomId)) && repo.rooms == old(repo.rooms)
      ensures old(roomId !in repo.rooms) ==>
                r == Success(MeetingRoom(roomId, name, capacity, location)) &&
                repo.rooms == old(repo.rooms)[roomId := r.value]
    {
      if repo.Exists(roomId) {
        return Failure(AlreadyExists(RoomEntity, roomId));
      }
      var saved := repo.Save(MeetingRoom(roomId, name, capacity, location));
      r := Success(saved);
    }

    function RoomExists(roomId: string): (r: bool)
      reads repo
      ensures r <==> roomId in repo.rooms
    {
      repo.Exists(roomId)
    }

    method GetAllRooms() returns (all: seq<MeetingRoom>)
      requires repo.Valid()
      ensures forall room :: room in all <==> room in repo.rooms.Values
      ensures |all| == |repo.rooms| && DistinctRoomIds(all)
    {
      all := repo.FindAll();
    }
  }

  class BookingService {
    const bookingRepository: BookingRepository
    const employeeService: EmployeeService
    const roomService: MeetingRoomService

    /** The store is consistent and no room is double-booked. */
    ghost predicate Valid()
      reads bookingRepository, bookingRepository.bookings.Values
    {
      bookingRepository.Valid() && ActiveDisjoint(bookingRepository.bookings)
    }

    constructor (bookingRepository: BookingRepository, employeeService: EmployeeService, roomService: MeetingRoomService)
      ensures this.bookingRepository == bookingRepository
      ensures this.employeeService == employeeService && this.roomService == roomService
    {
      this.bookingRepository := bookingRepository;
      this.employeeService := employeeService;
      this.roomService := roomService;
    }

    /** The checks made before a booking is written, in the order they are
        made: the slot to book, or the first reason to refuse. */
    function Admit(employeeId: string, roomId: string, startTime: int, endTime: int, now: int, bookingId: string)
      : (r: Result<TimeSlot, ServiceError>)
      reads employeeService.repo, roomService.repo, bookingRepository, bookingRepository.bookings.Values
      ensures !employeeService.EmployeeExists(employeeId) ==> r == Failure(NotFound(EmployeeEntity, employeeId))
      ensures employeeService.EmployeeExists(employeeId) && !roomService.RoomExists(roomId) ==>
                r == Failure(NotFound(RoomEntity, roomId))
      ensures employeeService.EmployeeExists(employeeId) && roomService.RoomExists(roomId) &&
              NewTimeSlot(startTime, endTime, now).Failure? ==>
                r == Failure(InvalidSlot(NewTimeSlot(startTime, endTime, now).error))
      ensures employeeService.EmployeeExists(employeeId) && roomService.RoomExists(roomId) &&
              NewTimeSlot(startTime, endTime, now).Success? &&
              !bookingRepository.IsRoomAvailable(roomId, NewTimeSlot(startTime, endTime, now).value) ==>
                r == Failure(RoomNotAvailable(roomId, NewTimeSlot(startTime, endTime, now).value))
      ensures r.Success? <==>
                && employeeService.EmployeeExists(employeeId)
                && roomService.RoomExists(roomId)
                && NewTimeSlot(startTime, endTime, now).Success?
                && bookingRepository.IsRoomAvailable(roomId, NewTimeSlot(startTime, endTime, now).value)
                && ValidateBooking(bookingId, employeeId, roomId).None?
      ensures r.Success? ==> r.value == Slot(startTime, endTime)
    {
      if !employeeService.EmployeeExists(employeeId) then Failure(NotFound(EmployeeEntity, employeeId))
      else if !roomService.RoomExists(roomId) then Failure(NotFound(RoomEntity, roomId))
      else match NewTimeSlot(startTime, endTime, now)
        case Failure(e) => Failure(InvalidSlot(e))
        case Success(slot) =>
          if !bookingRepository.IsRoomAvailable(roomId, slot) then Failure(RoomNotAvailable(roomId, slot))
          else match ValidateBooking(bookingId, employeeId, roomId)
            case Some(e) => Failure(InvalidBooking(e))
            case None => Success(slot)
    }

    /** Make the checks of `Admit`; when they pass, store a fresh ACTIVE
        booking for the slot under a newly generated id. A refusal leaves the
        store as it was. */
    method BookRoom(employeeId: string, roomId: string, startTime: int, endTime: int, now: int, uuid: string)
      returns (r: Result<Booking, ServiceError>)
      requires Valid()
      requires BookingIdFor(uuid) !in bookingRepository.bookings
      modifies bookingRepository
      ensures Valid()
      ensures old(Admit(employeeId, roomId, startTime, endTime, now, BookingIdFor(uuid))).Failure? ==>
                && r == Failure(old(Admit(employeeId, roomId, startTime, endTime, now, BookingIdFor(uuid))).error)
                && unchanged(bookingRepository)
      ensures old(Admit(employeeId, roomId, startTime, endTime, now, BookingIdFor(uuid))).Success? ==>
                && r.Success?
                && fresh(r.value)
                && r.value.id == BookingIdFor(uuid)
                && r.value.employeeId == employeeId && r.value.roomId == roomId
                && r.value.slot == Slot(startTime, endTime)
                && r.value.status == Active
                && bookingRepository.bookings == old(bookingRepository.bookings)[r.value.id := r.value]
    {
      if !employeeService.EmployeeExists(employeeId) {
        return Failure(NotFound(EmployeeEntity, employeeId));
      }
      if !roomService.RoomExists(roomId) {
        return Failure(NotFound(RoomEntity, roomId));
      }
      var requested := NewTimeSlot(startTime, endTime, now);
      if requested.Failure? {
        return Failure(InvalidSlot(requested.error));
      }
      var slot := requested.value;
      var overlapping := bookingRepository.FindOverlappingBookings(roomId, slot);
      if overlapping != [] {
        return Failure(RoomNotAvailable(roomId, slot));
      }
      var created := NewBooking(BookingIdFor(uuid), employeeId, roomId, slot);
      if created.Failure? {
        return Failure(InvalidBooking(created.error));
      }
      var booking := created.value;
      var saved := Store(booking);
      r := Success(saved);
    }

    /** The write made under the room's lock: file a booking that meets no
        ACTIVE booking of its room. */
    method Store(booking: Booking) returns (saved: Booking)
      requires Valid()
      requires booking.id !in bookingRepository.bookings && booking !in bookingRepository.bookings.Values
      requires forall x :: x in bookingRepository.bookings.Values && x.roomId == booking.roomId && x.IsActive() ==>
                 !booking.slot.Overlaps(x.slot)
      modifies bookingRepository
      ensures Valid()
      ensures saved == booking
      ensures bookingRepository.bookings == old(bookingRepository.bookings)[booking.id := booking]
    {
      ghost var after := bookingRepository.bookings[booking.id := booking];
      InsertKeepsActiveDisjoint(bookingRepository.bookings, booking);
      saved := bookingRepository.Save(booking);
      ActiveDisjointFramed(after);
    }

    /** Look the booking up, then cancel it: an unknown id is NotFound, a
        booking that is no longer ACTIVE is refused and left as it was. */
    method CancelBooking(bookingId: string) returns (r: Result<Booking, ServiceError>)
      requires Valid()
      modifies bookingRepository.bookings.Values
      ensures Valid()
      ensures bookingId !in bookingRepository.bookings ==> r == Failure(NotFound(BookingEntity, bookingId))
      ensures bookingId in bookingRepository.bookings ==>
                var b := bookingRepository.bookings[bookingId];
                && (old(b.status) == Active ==> r == Success(b) && b.status == Cancelled)
                && (old(b.status) != Active ==> r == Failure(InvalidState(old(b.status))) && b.status == old(b.status))
      ensures forall x :: x in bookingRepository.bookings.Values && x.id != bookingId ==> x.status == old(x.status)
      ensures unchanged(bookingRepository)
    {
      var found := bookingRepository.FindById(bookingId);
      if found.None? {
        return Failure(NotFound(BookingEntity, bookingId));
      }
      var booking := found.value;
      var outcome := booking.Cancel();
      if outcome.Fail? {
        return Failure(InvalidState(outcome.error.current));
      }
      r := Success(booking);
    }

    /** The rooms of `rooms`, in order, with no overlapping ACTIVE booking. */
    function AvailableAmong(rooms: seq<MeetingRoom>, slot: TimeSlot): (r: seq<MeetingRoom>)
      reads bookingRepository, bookingRepository.bookings.Values
      ensures |r| <= |rooms|
      ensures forall room :: room in r <==> room in rooms && bookingRepository.IsRoomAvailable(room.roomId, slot)
      ensures DistinctRoomIds(rooms) ==> DistinctRoomIds(r)
    {
      if rooms == [] then []
      else
        var rest := AvailableAmong(rooms[1..], slot);
        if bookingRepository.IsRoomAvailable(rooms[0].roomId, slot) then [rooms[0]] + rest else rest
    }

    /** Build the slot, then keep every known room that has no overlapping
        ACTIVE booking, in the listing's order. */
    method GetAvailableRooms(startTime: int, endTime: int, now: int) returns (r: Result<seq<MeetingRoom>, ServiceError>)
      requires Valid() && roomService.repo.Valid()
      ensures NewTimeSlot(startTime, endTime, now).Failure? ==>
                r == Failure(InvalidSlot(NewTimeSlot(startTime, endTime, now).error))
      ensures NewTimeSlot(startTime, endTime, now).Success? ==> r.Success?
      ensures r.Success? ==> DistinctRoomIds(r.value)
      ensures r.Success? ==> forall room :: room in r.value <==>
                room in roomService.repo.rooms.Values &&
                forall b :: b in bookingRepository.bookings.Values && b.roomId == room.roomId && b.IsActive() ==>
                  !NewTimeSlot(startTime, endTime, now).value.Overlaps(b.slot)
    {
      var requested := NewTimeSlot(startTime, endTime, now);
      if requested.Failure? {
        return Failure(InvalidSlot(requested.error));
      }
      var slot := requested.value;
      var all := roomService.GetAllRooms();
      var available := AvailableAmong(all, slot);
      forall room | room in all
        ensures room in available <==>
                  forall b :: b in bookingRepository.bookings.Values && b.roomId == room.roomId && b.IsActive() ==>
                    !slot.Overlaps(b.slot)
      {
        var free := bookingRepository.IsRoomAvailable(room.roomId, slot);
      }
      r := Success(available);
    }

    function ListBookingsForRoom(roomId: string): (r: Result<seq<Booking>, ServiceError>)
      reads roomService.repo, bookingRepository
      ensures !roomService.RoomExists(roomId) ==> r == Failure(NotFound(RoomEntity, roomId))
      ensures roomService.RoomExists(roomId) ==> r == Success(bookingRepository.FindByRoomId(roomId))
      ensures bookingRepository.Valid() && r.Success? ==>
                (forall b :: b in r.value ==> b in bookingRepository.bookings.Values && b.roomId == roomId) &&
                (forall b :: b in bookingRepository.bookings.Values && b.roomId == roomId ==> b in r.value)
    {
      if !roomService.RoomExists(roomId) then Failure(NotFound(RoomEntity, roomId))
      else Success(bookingRepository.FindByRoomId(roomId))
    }

    function ListActiveBookingsForRoom(roomId: string): (r: Result<seq<Booking>, ServiceError>)
      reads roomService.repo, bookingRepository, bookingRepository.bookings.Values
      ensures !roomService.RoomExists(roomId) ==> r == Failure(NotFound(RoomEntity, roomId))
      ensures roomService.RoomExists(roomId) ==> r == Success(bookingRepository.FindActiveBookingsByRoomId(roomId))
      ensures bookingRepository.Valid() && r.Success? ==>
                (forall b :: b in r.value ==> b in bookingRepository.bookings.Values && b.roomId == roomId && b.IsActive()) &&
                (forall b :: b in bookingRepository.bookings.Values && b.roomId == roomId && b.IsActive() ==> b in r.value)
    {
      if !roomService.RoomExists(roomId) then Failure(NotFound(RoomEntity, roomId))
      else Success(bookingRepository.FindActiveBookingsByRoomId(roomId))
    }

    function ListBookingsForEmployee(employeeId: string): (r: Result<seq<Booking>, ServiceError>)
      reads employeeService.repo, bookingRepository
      ensures !employeeService.EmployeeExists(employeeId) ==> r == Failure(NotFound(EmployeeEntity, employeeId))
      ensures employeeService.EmployeeExists(employeeId) ==> r == Success(bookingRepository.FindByEmployeeId(employeeId))
      ensures bookingRepository.Valid() && r.Success? ==>
                (forall b :: b in r.value ==> b in bookingRepository.bookings.Values && b.employeeId == employeeId) &&
                (forall b :: b in bookingRepository.bookings.Values && b.employeeId == employeeId ==> b in r.value)
    {
      if !employeeService.EmployeeExists(employeeId) then Failure(NotFound(EmployeeEntity, employeeId))
      else Success(bookingRepository.FindByEmployeeId(employeeId))
    }

    function ListActiveBookingsForEmployee(employeeId: string): (r: Result<seq<Booking>, ServiceError>)
      reads employeeService.repo, bookingRepository, bookingRepository.bookings.Values
      ensures !employeeService.EmployeeExists(employeeId) ==> r == Failure(NotFound(EmployeeEntity, employeeId))
      ensures employeeService.EmployeeExists(employeeId) ==> r == Success(bookingRepository.FindActiveBookingsByEmployeeId(employeeId))
      ensures bookingRepository.Valid() && r.Success? ==>
                (forall b :: b in r.value ==> b in bookingRepository.bookings.Values && b.employeeId == employeeId && b.IsActive()) &&
                (forall b :: b in bookingRepository.bookings.Values && b.employeeId == employeeId && b.IsActive() ==> b in r.value)
    {
      if !employeeService.EmployeeExists(employeeId) then Failure(NotFound(EmployeeEntity, employeeId))
      else Success(bookingRepository.FindActiveBookingsByEmployeeId(employeeId))
    }

    function GetBooking(bookingId: string): (r: Result<Booking, ServiceError>)
      reads bookingRepository
      ensures r.Failure? <==> bookingId !in bookingRepository.bookings
      ensures r.Failure? ==> r.error == NotFound(BookingEntity, bookingId)
      ensures r.Success? ==> r.value == bookingRepository.bookings[bookingId]
    {
      match bookingRepository.FindById(bookingId)
      case Some(b) => Success(b)
      case None => Failure(NotFound(BookingEntity, bookingId))
    }
  }
}
