/** In-memory stores: employees and rooms keyed by id, and bookings keyed by
    id with two secondary indexes (room id to booking ids, employee id to
    booking ids) kept in step with the canonical map. */
module Repo {
  import opened Wrappers
  import opened TimeSlots
  import opened Bookings
  import opened Entities

  class EmployeeRepository {
    var employees: map<string, Employee>

    ghost predicate Valid()
      reads this
    {
      forall id :: id in employees ==> employees[id].employeeId == id
    }

    constructor ()
      ensures Valid() && employees == map[]
    {
      employees := map[];
    }

    /** `put` under the employee's own id, replacing any earlier entry. */
    method Save(e: Employee) returns (saved: Employee)
      requires Valid()
      modifies this
      ensures Valid()
      ensures saved == e && employees == old(employees)[e.employeeId := e]
    {
      employees := employees[e.employeeId := e];
      saved := e;
    }

    function FindById(employeeId: string): (r: Option<Employee>)
      reads this
      ensures r.Some? <==> employeeId in employees
      ensures r.Some? ==> r.value == employees[employeeId]
      ensures Valid() && r.Some? ==> r.value.employeeId == employeeId
    {
      if employeeId in employees then Some(employees[employeeId]) else None
    }

    /** A copy of the map's values, one per stored employee, in the map's
        own (unspecified) iteration order. */
    method FindAll() returns (all: seq<Employee>)
      ensures |all| == |employees|
      ensures forall e :: e in all <==> e in employees.Values
    {
      var left := employees.Keys;
      all := [];
      while left != {}
        invariant left <= employees.Keys
        invariant forall e :: e in all ==> e in employees.Values
        invariant forall id :: id in employees && id !in left ==> employees[id] in all
        invariant |all| + |left| == |employees|
        decreases left
      {
        var id :| id in left;
        all := all + [employees[id]];
        left := left - {id};
      }
    }

    function Exists(employeeId: string): (r: bool)
      reads this
      ensures r <==> FindById(employeeId).Some?
    {
      employeeId in employees
    }

    /** `remove`: true exactly when an entry was there to remove. */
    method DeleteById(employeeId: string) returns (deleted: bool)
      requires Valid()
      modifies this
      ensures Valid()
      ensures deleted <==> employeeId in old(employees)
      ensures employees == old(employees) - {employeeId}
    {
      deleted := employeeId in employees;
      employees := employees - {employeeId};
    }
  }

  class MeetingRoomRepository {
    var rooms: map<string, MeetingRoom>

    ghost predicate Valid()
      reads this
    {
      forall id :: id in rooms ==> rooms[id].roomId == id
    }

    constructor ()
      ensures Valid() && rooms == map[]
    {
      rooms := map[];
    }

    /** `put` under the room's own id, replacing any earlier entry. */
    method Save(room: MeetingRoom) returns (saved: MeetingRoom)
      requires Valid()
      modifies this
      ensures Valid()
      ensures saved == room && rooms == old(rooms)[room.roomId := room]
    {
      rooms := rooms[room.roomId := room];
      saved := room;
    }

    function FindById(roomId: string): (r: Option<MeetingRoom>)
      reads this
      ensures r.Some? <==> roomId in rooms
      ensures r.Some? ==> r.value == rooms[roomId]
      ensures Valid() && r.Some? ==> r.value.roomId == roomId
    {
      if roomId in rooms then Some(rooms[roomId]) else None
    }

    function Exists(roomId: string): (r: bool)
      reads this
      ensures r <==> FindById(roomId).Some?
    {
      roomId in rooms
    }

    /** `remove`: true exactly when an entry was there to remove. */
    method DeleteById(roomId: string) returns (deleted: bool)
      requires Valid()
      modifies this
      ensures Valid()
      ensures deleted <==> roomId in old(rooms)
      ensures rooms == old(rooms) - {roomId}
    {
      deleted := roomId in rooms;
      rooms := rooms - {roomId};
    }

    /** A copy of the map's values, each room exactly once, in the map's own
        (unspecified) iteration order. */
    method FindAll() returns (all: seq<MeetingRoom>)
      requires Valid()
      ensures |all| == |rooms|
      ensures forall room :: room in all <==> room in rooms.Values
      ensures DistinctRoomIds(all)
    {
      var left := rooms.Keys;
      all := [];
      while left != {}
        invariant left <= rooms.Keys
        invariant forall room :: room in all <==> room in rooms.Values && room.roomId !in left
        invariant DistinctRoomIds(all)
        invariant |all| + |left| == |rooms|
        decreases left
      {
        var id :| id in left;
        all := all + [rooms[id]];
        left := left - {id};
      }
    }

    /** The rooms whose capacity is at least `minCapacity`. */
    method FindByMinCapacity(minCapacity: int) returns (found: seq<MeetingRoom>)
      requires Valid()
      ensures forall room :: room in found <==> room in rooms.Values && room.capacity >= minCapacity
      ensures DistinctRoomIds(found)
    {
      var all := FindAll();
      found := WithMinCapacity(all, minCapacity);
    }
  }

  /** The stream filter `capacity >= minCapacity`, keeping order. */
  function WithMinCapacity(rooms: seq<MeetingRoom>, minCapacity: int): (r: seq<MeetingRoom>)
    ensures forall room :: room in r <==> room in rooms && room.capacity >= minCapacity
    ensures DistinctRoomIds(rooms) ==> DistinctRoomIds(r)
  {
    if rooms == [] then []
    else
      var rest := WithMinCapacity(rooms[1..], minCapacity);
      if rooms[0].capacity >= minCapacity then [rooms[0]] + rest else rest
  }

  // ---------------------------------------------------------------------
  // Booking store helpers

  /** The key a secondary index files a booking under: its room or its
      employee. */
  function KeyOf(b: Booking, byRoom: bool): string
  {
    if byRoom then b.roomId else b.employeeId
  }

  predicate NoDuplicates(s: seq<string>)
  {
    forall i, j :: 0 <= i < j < |s| ==> s[i] != s[j]
  }

  /** `getOrDefault(key, emptyList())`. */
  function IdsFor(index: map<string, seq<string>>, key: string): seq<string>
  {
    if key in index then index[key] else []
  }

  /** Every id of `ids` names a stored booking filed under `key`. */
  ghost predicate ListedUnder(ids: seq<string>, bookings: map<string, Booking>, key: string, byRoom: bool)
  {
    forall id :: id in ids ==> id in bookings && KeyOf(bookings[id], byRoom) == key
  }

  /** Every id listed under a key names a stored booking filed under it. */
  ghost predicate IndexSound(index: map<string, seq<string>>, bookings: map<string, Booking>, byRoom: bool)
  {
    forall key :: key in index ==> ListedUnder(index[key], bookings, key, byRoom)
  }

  ghost predicate IndexNoDuplicates(index: map<string, seq<string>>)
  {
    forall key :: key in index ==> NoDuplicates(index[key])
  }

  /** Every stored booking is listed under its key. */
  ghost predicate IndexComplete(index: map<string, seq<string>>, bookings: map<string, Booking>, byRoom: bool)
  {
    forall id :: id in bookings ==> id in IdsFor(index, KeyOf(bookings[id], byRoom))
  }

  /** A secondary index lists, under each key, exactly the ids of the stored
      bookings filed under that key, each once. */
  ghost predicate IndexExact(index: map<string, seq<string>>, bookings: map<string, Booking>, byRoom: bool)
  {
    IndexSound(index, bookings, byRoom) && IndexNoDuplicates(index) && IndexComplete(index, bookings, byRoom)
  }

  /** `map(bookings::get).filter(Objects::nonNull)`: the ids that still resolve,
      in index order. */
  function Resolve(ids: seq<string>, bookings: map<string, Booking>): (r: seq<Booking>)
    ensures |r| <= |ids|
    ensures forall b :: b in r ==> b in bookings.Values
    ensures forall b :: b in r ==> exists id :: id in ids && id in bookings && bookings[id] == b
    ensures forall id :: id in ids && id in bookings ==> bookings[id] in r
    ensures (forall id :: id in ids ==> id in bookings) ==>
              |r| == |ids| && forall i :: 0 <= i < |ids| ==> r[i] == bookings[ids[i]]
  {
    if ids == [] then []
    else
      var rest := Resolve(ids[1..], bookings);
      assert forall id :: id in ids <==> id == ids[0] || id in ids[1..];
      if ids[0] in bookings then [bookings[ids[0]]] + rest else rest
  }

  /** `filter(Booking::isActive)`: the ACTIVE bookings, each as often as in
      the input, and (by `ActiveOnlyAppend`) in the input's order. */
  function ActiveOnly(bs: seq<Booking>): (r: seq<Booking>)
    reads bs
    ensures |r| <= |bs|
    ensures multiset(r) <= multiset(bs)
    ensures forall b :: b in r ==> b in bs && b.IsActive()
    ensures forall b :: b in bs && b.IsActive() ==> b in r && multiset(r)[b] == multiset(bs)[b]
  {
    if bs == [] then []
    else
      var rest := ActiveOnly(bs[1..]);
      assert bs == [bs[0]] + bs[1..];
      if bs[0].IsActive() then [bs[0]] + rest else rest
  }

  lemma ConcatAssociative<T>(x: seq<T>, y: seq<T>, z: seq<T>)
    ensures x + (y + z) == (x + y) + z
  {
  }

  /** Filtering a concatenation filters each part: the filter neither
      reorders nor mixes the ACTIVE bookings of its input. */
  lemma {:induction false} ActiveOnlyAppend(a: seq<Booking>, b: seq<Booking>)
    ensures ActiveOnly(a + b) == ActiveOnly(a) + ActiveOnly(b)
    decreases |a|
  {
    if a == [] {
      assert a + b == b;
    } else {
      var ab := a + b;
      assert ab[0] == a[0] && ab[1..] == a[1..] + b;
      ActiveOnlyAppend(a[1..], b);
      var head := if a[0].IsActive() then [a[0]] else [];
      assert ActiveOnly(a) == head + ActiveOnly(a[1..]);
      calc {
        ActiveOnly(ab);
        head + ActiveOnly(a[1..] + b);
        head + (ActiveOnly(a[1..]) + ActiveOnly(b));
        { ConcatAssociative(head, ActiveOnly(a[1..]), ActiveOnly(b)); }
        ActiveOnly(a) + ActiveOnly(b);
      }
    }
  }

  /** `filter(booking -> booking.overlaps(slot))`: the conflicting
      bookings, each as often as in the input, and (by
      `OverlappingOnlyAppend`) in the input's order. */
  function OverlappingOnly(bs: seq<Booking>, slot: TimeSlot): (r: seq<Booking>)
    reads bs
    ensures |r| <= |bs|
    ensures multiset(r) <= multiset(bs)
    ensures forall b :: b in r ==> b in bs && b.Overlaps(slot)
    ensures forall b :: b in bs && b.Overlaps(slot) ==> b in r && multiset(r)[b] == multiset(bs)[b]
  {
    if bs == [] then []
    else
      var rest := OverlappingOnly(bs[1..], slot);
      assert bs == [bs[0]] + bs[1..];
      if bs[0].Overlaps(slot) then [bs[0]] + rest else rest
  }

  /** Filtering a concatenation filters each part. */
  lemma {:induction false} OverlappingOnlyAppend(a: seq<Booking>, b: seq<Booking>, slot: TimeSlot)
    ensures OverlappingOnly(a + b, slot) == OverlappingOnly(a, slot) + OverlappingOnly(b, slot)
    decreases |a|
  {
    if a == [] {
      assert a + b == b;
    } else {
      var ab := a + b;
      assert ab[0] == a[0] && ab[1..] == a[1..] + b;
      OverlappingOnlyAppend(a[1..], b, slot);
      var head := if a[0].Overlaps(slot) then [a[0]] else [];
      assert OverlappingOnly(a, slot) == head + OverlappingOnly(a[1..], slot);
      calc {
        OverlappingOnly(ab, slot);
        head + OverlappingOnly(a[1..] + b, slot);
        head + (OverlappingOnly(a[1..], slot) + OverlappingOnly(b, slot));
        { ConcatAssociative(head, OverlappingOnly(a[1..], slot), OverlappingOnly(b, slot)); }
        OverlappingOnly(a, slot) + OverlappingOnly(b, slot);
      }
    }
  }

  /** `List.remove(Object)`: drop the first occurrence, if any. */
  function RemoveFirst(s: seq<string>, x: string): (r: seq<string>)
    ensures x !in s ==> r == s
    ensures forall y :: y in r ==> y in s
  {
    if s == [] then []
    else if s[0] == x then s[1..]
    else [s[0]] + RemoveFirst(s[1..], x)
  }

  /** Exactly one occurrence of `x` goes, when there is one. */
  lemma {:induction false} RemoveFirstMultiset(s: seq<string>, x: string)
    ensures multiset(RemoveFirst(s, x)) == multiset(s) - multiset{x}
    decreases |s|
  {
    if s != [] {
      assert s == [s[0]] + s[1..];
      if s[0] != x {
        RemoveFirstMultiset(s[1..], x);
      }
    }
  }

  /** The index after removing `id` from the list under `key`; an absent key
      leaves the index as it is (the Java repository removes from a throw-away empty
      list). */
  function RemoveFromIndex(index: map<string, seq<string>>, key: string, id: string): map<string, seq<string>>
  {
    if key in index then index[key := RemoveFirst(index[key], id)] else index
  }

  lemma RemoveFirstNoDuplicates(s: seq<string>, x: string)
    requires NoDuplicates(s)
    ensures NoDuplicates(RemoveFirst(s, x))
    ensures forall y :: y in RemoveFirst(s, x) <==> y in s && y != x
  {
    var r := RemoveFirst(s, x);
    RemoveFirstMultiset(s, x);
    forall y
      ensures y in r <==> y in s && y != x
    {
      assert y in r <==> y in multiset(r);
      assert y in s <==> y in multiset(s);
      NoDuplicatesCount(s, y);
    }
    forall i, j | 0 <= i < j < |r|
      ensures r[i] != r[j]
    {
      TwoIndicesCount(r, i, j);
      NoDuplicatesCount(s, r[i]);
    }
  }

  lemma {:induction false} NoDuplicatesCount(s: seq<string>, y: string)
    requires NoDuplicates(s)
    ensures multiset(s)[y] <= 1
    decreases |s|
  {
    if s != [] {
      assert s == [s[0]] + s[1..];
      assert NoDuplicates(s[1..]);
      NoDuplicatesCount(s[1..], y);
      if y == s[0] {
        assert y !in s[1..];
      }
    }
  }

  lemma TwoIndicesCount(s: seq<string>, i: int, j: int)
    requires 0 <= i < j < |s|
    ensures s[i] == s[j] ==> multiset(s)[s[i]] >= 2
  {
    assert s == s[..i] + [s[i]] + s[i+1..j] + [s[j]] + s[j+1..];
  }

  /** Filing a booking with a fresh id at the end of its key's list keeps an
      index exact. */
  lemma InsertKeepsIndexExact(index: map<string, seq<string>>, bookings: map<string, Booking>, b: Booking, byRoom: bool)
    requires IndexExact(index, bookings, byRoom)
    requires b.id !in bookings
    ensures IndexExact(index[KeyOf(b, byRoom) := IdsFor(index, KeyOf(b, byRoom)) + [b.id]], bookings[b.id := b], byRoom)
  {
    var key := KeyOf(b, byRoom);
    var ids := IdsFor(index, key);
    var index' := index[key := ids + [b.id]];
    var bookings' := bookings[b.id := b];
    assert ListedUnder(ids, bookings, key, byRoom) by {
      if key in index {
        assert ListedUnder(index[key], bookings, key, byRoom);
      }
    }
    assert b.id !in ids;
    forall k | k in index'
      ensures ListedUnder(index'[k], bookings', k, byRoom)
    {
      if k != key {
        assert ListedUnder(index[k], bookings, k, byRoom);
      }
    }
    forall k | k in index'
      ensures NoDuplicates(index'[k])
    {
      if k == key {
        assert forall i :: 0 <= i < |ids| ==> index'[k][i] == ids[i];
      }
    }
    forall other | other in bookings'
      ensures other in IdsFor(index', KeyOf(bookings'[other], byRoom))
    {
      if other != b.id {
        assert other in IdsFor(index, KeyOf(bookings[other], byRoom));
      }
    }
  }

  /** Removing a stored id from its key's list, together with the booking,
      keeps an index exact. */
  lemma DeleteKeepsIndexExact(index: map<string, seq<string>>, bookings: map<string, Booking>, id: string, byRoom: bool)
    requires IndexExact(index, bookings, byRoom)
    requires id in bookings
    ensures IndexExact(RemoveFromIndex(index, KeyOf(bookings[id], byRoom), id), bookings - {id}, byRoom)
  {
    var key := KeyOf(bookings[id], byRoom);
    assert id in IdsFor(index, key);
    RemoveFirstNoDuplicates(index[key], id);
    DeleteKeepsSound(index, bookings, id, key, byRoom);
    DeleteKeepsComplete(index, bookings, id, key, byRoom);
    var index' := index[key := RemoveFirst(index[key], id)];
    forall k | k in index'
      ensures NoDuplicates(index'[k])
    {
      if k != key {
        assert index'[k] == index[k];
      }
    }
  }

  lemma DeleteKeepsSound(index: map<string, seq<string>>, bookings: map<string, Booking>, id: string, key: string, byRoom: bool)
    requires IndexSound(index, bookings, byRoom) && IndexNoDuplicates(index)
    requires id in bookings && key == KeyOf(bookings[id], byRoom) && key in index
    ensures IndexSound(index[key := RemoveFirst(index[key], id)], bookings - {id}, byRoom)
  {
    var ids' := RemoveFirst(index[key], id);
    RemoveFirstNoDuplicates(index[key], id);
    var index' := index[key := ids'];
    forall k | k in index'
      ensures ListedUnder(index'[k], bookings - {id}, k, byRoom)
    {
      assert ListedUnder(if k == key then index[key] else index[k], bookings, k, byRoom);
      assert id !in index'[k];
    }
  }

  lemma DeleteKeepsComplete(index: map<string, seq<string>>, bookings: map<string, Booking>, id: string, key: string, byRoom: bool)
    requires IndexComplete(index, bookings, byRoom) && IndexNoDuplicates(index)
    requires id in bookings && key == KeyOf(bookings[id], byRoom) && key in index
    ensures IndexComplete(index[key := RemoveFirst(index[key], id)], bookings - {id}, byRoom)
  {
    var ids' := RemoveFirst(index[key], id);
    RemoveFirstNoDuplicates(index[key], id);
    var index' := index[key := ids'];
    var bookings' := bookings - {id};
    forall other | other in bookings'
      ensures other in IdsFor(index', KeyOf(bookings'[other], byRoom))
    {
      var k := KeyOf(bookings[other], byRoom);
      assert other in IdsFor(index, k);
    }
  }

  /** In an exact index every id listed under a key resolves, in order, and
      what resolves is exactly the stored bookings filed under that key. */
  lemma ResolveIndexed(index: map<string, seq<string>>, bookings: map<string, Booking>, key: string, byRoom: bool)
    ensures IndexExact(index, bookings, byRoom) ==> var ids := IdsFor(index, key);
      && |Resolve(ids, bookings)| == |ids|
      && (forall i :: 0 <= i < |ids| ==> ids[i] in bookings && Resolve(ids, bookings)[i] == bookings[ids[i]])
      && (forall b :: b in Resolve(ids, bookings) ==> b in bookings.Values && KeyOf(b, byRoom) == key)
      && (forall b :: b in bookings.Values && KeyOf(b, byRoom) == key ==> b in Resolve(ids, bookings))
  {
    if IndexExact(index, bookings, byRoom) {
      var ids := IdsFor(index, key);
      assert ListedUnder(ids, bookings, key, byRoom) by {
        if key in index {
          assert ListedUnder(index[key], bookings, key, byRoom);
        }
      }
      var r := Resolve(ids, bookings);
      forall b | b in r
        ensures KeyOf(b, byRoom) == key
      {
        var id :| id in ids && id in bookings && bookings[id] == b;
      }
      forall b | b in bookings.Values && KeyOf(b, byRoom) == key
        ensures b in r
      {
        var id :| id in bookings && bookings[id] == b;
        assert id in IdsFor(index, KeyOf(bookings[id], byRoom));
      }
    }
  }

  class BookingRepository {
    var bookings: map<string, Booking>
    var roomBookings: map<string, seq<string>>
    var employeeBookings: map<string, seq<string>>

    /** Each booking is stored under its own id, and both indexes are exact. */
    ghost predicate Valid()
      reads this
    {
      && (forall id :: id in bookings ==> bookings[id].id == id)
      && IndexExact(roomBookings, bookings, true)
      && IndexExact(employeeBookings, bookings, false)
    }

    constructor ()
      ensures Valid()
      ensures bookings == map[] && roomBookings == map[] && employeeBookings == map[]
    {
      bookings, roomBookings, employeeBookings := map[], map[], map[];
    }

    /** Store the booking and append its id to its room's and its employee's
        lists; every other list is left alone. Ids are generated fresh, so the
        booking never replaces another. */
    method Save(b: Booking) returns (saved: Booking)
      requires Valid()
      requires b.id !in bookings
      modifies this
      ensures Valid()
      ensures saved == b
      ensures bookings == old(bookings)[b.id := b]
      ensures roomBookings == old(roomBookings)[b.roomId := IdsFor(old(roomBookings), b.roomId) + [b.id]]
      ensures employeeBookings == old(employeeBookings)[b.employeeId := IdsFor(old(employeeBookings), b.employeeId) + [b.id]]
      ensures FindById(b.id) == Some(b)
      ensures b in FindByRoomId(b.roomId) && b in FindByEmployeeId(b.employeeId)
    {
      var bookings' := bookings[b.id := b];
      var byRoom := roomBookings[b.roomId := IdsFor(roomBookings, b.roomId) + [b.id]];
      var byEmployee := employeeBookings[b.employeeId := IdsFor(employeeBookings, b.employeeId) + [b.id]];
      InsertKeepsIndexExact(roomBookings, bookings, b, true);
      InsertKeepsIndexExact(employeeBookings, bookings, b, false);
      assert b.id in IdsFor(byRoom, b.roomId) && b.id in IdsFor(byEmployee, b.employeeId);
      bookings, roomBookings, employeeBookings := bookings', byRoom, byEmployee;
      saved := b;
    }

    function FindById(bookingId: string): (r: Option<Booking>)
      reads this
      ensures r.Some? <==> bookingId in bookings
      ensures r.Some? ==> r.value == bookings[bookingId]
      ensures Valid() && r.Some? ==> r.value.id == bookingId
    {
      if bookingId in bookings then Some(bookings[bookingId]) else None
    }

    /** A copy of the map's values, one per stored booking, in the map's
        own (unspecified) iteration order. */
    method FindAll() returns (all: seq<Booking>)
      ensures |all| == |bookings|
      ensures forall b :: b in all <==> b in bookings.Values
    {
      var left := bookings.Keys;
      all := [];
      while left != {}
        invariant left <= bookings.Keys
        invariant forall b :: b in all ==> b in bookings.Values
        invariant forall id :: id in bookings && id !in left ==> bookings[id] in all
        invariant |all| + |left| == |bookings|
        decreases left
      {
        var id :| id in left;
        all := all + [bookings[id]];
        left := left - {id};
      }
    }

    /** The bookings listed under the room, in index order; in a valid
        store every listed id resolves, in order, and the result is exactly
        the stored bookings of that room. */
    function FindByRoomId(roomId: string): (r: seq<Booking>)
      reads this
      ensures forall b :: b in r ==> exists id :: id in IdsFor(roomBookings, roomId) && id in bookings && bookings[id] == b
      ensures forall id :: id in IdsFor(roomBookings, roomId) && id in bookings ==> bookings[id] in r
      ensures Valid() ==> |r| == |IdsFor(roomBookings, roomId)|
      ensures Valid() ==> forall i :: 0 <= i < |r| ==> IdsFor(roomBookings, roomId)[i] in bookings && r[i] == bookings[IdsFor(roomBookings, roomId)[i]]
      ensures Valid() ==> forall b :: b in r ==> b in bookings.Values && b.roomId == roomId
      ensures Valid() ==> forall b :: b in bookings.Values && b.roomId == roomId ==> b in r
    {
      ResolveIndexed(roomBookings, bookings, roomId, true);
      Resolve(IdsFor(roomBookings, roomId), bookings)
    }

    /** The bookings listed under the employee, in index order; in a valid
        store every listed id resolves, in order, and the result is exactly
        the stored bookings of that employee. */
    function FindByEmployeeId(employeeId: string): (r: seq<Booking>)
      reads this
      ensures forall b :: b in r ==> exists id :: id in IdsFor(employeeBookings, employeeId) && id in bookings && bookings[id] == b
      ensures forall id :: id in IdsFor(employeeBookings, employeeId) && id in bookings ==> bookings[id] in r
      ensures Valid() ==> |r| == |IdsFor(employeeBookings, employeeId)|
      ensures Valid() ==> forall i :: 0 <= i < |r| ==> IdsFor(employeeBookings, employeeId)[i] in bookings && r[i] == bookings[IdsFor(employeeBookings, employeeId)[i]]
      ensures Valid() ==> forall b :: b in r ==> b in bookings.Values && b.employeeId == employeeId
      ensures Valid() ==> forall b :: b in bookings.Values && b.employeeId == employeeId ==> b in r
    {
      ResolveIndexed(employeeBookings, bookings, employeeId, false);
      Resolve(IdsFor(employeeBookings, employeeId), bookings)
    }

    /** The ACTIVE sub-list of the room's bookings: each ACTIVE one as often
        as there, in the same order (`ActiveOnlyAppend`); in a valid store,
        exactly the stored ACTIVE bookings of that room. */
    function FindActiveBookingsByRoomId(roomId: string): (r: seq<Booking>)
      reads this, bookings.Values
      ensures multiset(r) <= multiset(FindByRoomId(roomId))
      ensures forall b :: b in r ==> b in FindByRoomId(roomId) && b.IsActive()
      ensures forall b :: b in FindByRoomId(roomId) && b.IsActive() ==>
                b in r && multiset(r)[b] == multiset(FindByRoomId(roomId))[b]
      ensures Valid() ==> forall b :: b in r ==> b in bookings.Values && b.roomId == roomId && b.IsActive()
      ensures Valid() ==> forall b :: b in bookings.Values && b.roomId == roomId && b.IsActive() ==> b in r
    {
      ActiveOnly(FindByRoomId(roomId))
    }

    /** The ACTIVE sub-list of the employee's bookings: each ACTIVE one as
        often as there, in the same order (`ActiveOnlyAppend`); in a valid
        store, exactly the stored ACTIVE bookings of that employee. */
    function FindActiveBookingsByEmployeeId(employeeId: string): (r: seq<Booking>)
      reads this, bookings.Values
      ensures multiset(r) <= multiset(FindByEmployeeId(employeeId))
      ensures forall b :: b in r ==> b in FindByEmployeeId(employeeId) && b.IsActive()
      ensures forall b :: b in FindByEmployeeId(employeeId) && b.IsActive() ==>
                b in r && multiset(r)[b] == multiset(FindByEmployeeId(employeeId))[b]
      ensures Valid() ==> forall b :: b in r ==> b in bookings.Values && b.employeeId == employeeId && b.IsActive()
      ensures Valid() ==> forall b :: b in bookings.Values && b.employeeId == employeeId && b.IsActive() ==> b in r
    {
      ActiveOnly(FindByEmployeeId(employeeId))
    }

    /** The ACTIVE bookings of the room that overlap the slot; in a valid
        store, exactly the stored ACTIVE bookings of that room whose slots
        overlap it. */
    function FindOverlappingBookings(roomId: string, slot: TimeSlot): (r: seq<Booking>)
      reads this, bookings.Values
      ensures forall b :: b in r ==> b in FindActiveBookingsByRoomId(roomId) && b.Overlaps(slot)
      ensures forall b :: b in FindActiveBookingsByRoomId(roomId) && b.Overlaps(slot) ==> b in r
      ensures Valid() ==> forall b :: b in r ==>
                b in bookings.Values && b.roomId == roomId && b.IsActive() && slot.Overlaps(b.slot)
      ensures Valid() ==> forall b :: b in bookings.Values && b.roomId == roomId && b.IsActive() && slot.Overlaps(b.slot) ==>
                b in r
    {
      OverlappingOnly(FindActiveBookingsByRoomId(roomId), slot)
    }

    /** `findOverlappingBookings(...).isEmpty()`; in a valid store, free
        exactly when no stored ACTIVE booking of the room overlaps the slot. */
    function IsRoomAvailable(roomId: string, slot: TimeSlot): (r: bool)
      reads this, bookings.Values
      ensures r <==> FindOverlappingBookings(roomId, slot) == []
      ensures Valid() ==> (r <==>
                forall b :: b in bookings.Values && b.roomId == roomId && b.IsActive() ==> !slot.Overlaps(b.slot))
    {
      var found := FindOverlappingBookings(roomId, slot);
      assert found != [] ==> found[0] in found;
      found == []
    }

    /** Remove the booking and one occurrence of its id from its room's and
        its employee's lists; report whether it was there. */
    method DeleteById(bookingId: string) returns (deleted: bool)
      requires Valid()
      modifies this
      ensures Valid()
      ensures deleted <==> bookingId in old(bookings)
      ensures bookings == old(bookings) - {bookingId}
      ensures !deleted ==> roomBookings == old(roomBookings) && employeeBookings == old(employeeBookings)
      ensures deleted ==> roomBookings == RemoveFromIndex(old(roomBookings), old(bookings)[bookingId].roomId, bookingId)
      ensures deleted ==> employeeBookings == RemoveFromIndex(old(employeeBookings), old(bookings)[bookingId].employeeId, bookingId)
    {
      if bookingId !in bookings {
        return false;
      }
      var b := bookings[bookingId];
      var bookings' := bookings - {bookingId};
      var byRoom := RemoveFromIndex(roomBookings, b.roomId, bookingId);
      var byEmployee := RemoveFromIndex(employeeBookings, b.employeeId, bookingId);
      DeleteKeepsIndexExact(roomBookings, bookings, bookingId, true);
      DeleteKeepsIndexExact(employeeBookings, bookings, bookingId, false);
      bookings, roomBookings, employeeBookings := bookings', byRoom, byEmployee;
      deleted := true;
    }
  }
}
