/** The plain data holders the reservation core looks up: employees and
    meeting rooms. Their field validation is not part of this model. */
module Entities {

  datatype Employee = Employee(employeeId: string, name: string, email: string)

  datatype MeetingRoom = MeetingRoom(roomId: string, name: string, capacity: int, location: string)

  /** No two rooms of the listing share an id. */
  predicate DistinctRoomIds(rooms: seq<MeetingRoom>)
  {
    forall i, j :: 0 <= i < j < |rooms| ==> rooms[i].roomId != rooms[j].roomId
  }
}
