/** Room service rules: room registration with room-number validation, searching the
    inventory by type and price, and availability over a date range. */
module Rooms {
  import opened Outcomes

  datatype RoomType = SIMPLE | DOBLE | SUITE

  /** DISPONIBLE is the only status the rules read; the enum's other members stand
      behind OtherStatus. */
  datatype RoomStatus = DISPONIBLE | OtherStatus(name: string)

  datatype Room = Room(id: int, roomNumber: string, roomType: RoomType, pricePerNight: real, capacity: int, status: RoomStatus)

  const RoomNumberRequiredMessage: string := "El número de habitación es obligatorio"

  /** The room the service builds from the registration data: no database id yet (0)
      and status DISPONIBLE. */
  function NewRoom(roomNumber: string, roomType: RoomType, pricePerNight: real, capacity: int): (room: Room)
    ensures room.roomNumber == roomNumber && room.roomType == roomType
    ensures room.pricePerNight == pricePerNight && room.capacity == capacity
    ensures room.status == DISPONIBLE
  {
    Room(0, roomNumber, roomType, pricePerNight, capacity, DISPONIBLE)
  }

  /** The room service, with the rooms it passed to the repository's Add. */
  class RoomService {
    var added: seq<Room>

    constructor ()
      ensures added == []
    {
      added := [];
    }

    /** RegisterRoom: an empty room number is refused with an argument error and nothing is
        added; otherwise the new room is added once and returned as the repository's Add
        returns it (the room it was given). */
    method RegisterRoom(roomNumber: string, roomType: RoomType, pricePerNight: real, capacity: int) returns (r: Result<Room>)
      modifies this
      ensures roomNumber == "" ==> r == Err(ArgumentError(RoomNumberRequiredMessage)) && added == old(added)
      ensures roomNumber != "" ==>
        && r.Ok?
        && r.value == NewRoom(roomNumber, roomType, pricePerNight, capacity)
        && added == old(added) + [r.value]
    {
      if roomNumber == "" {
        return Err(ArgumentError(RoomNumberRequiredMessage));
      }
      var room := NewRoom(roomNumber, roomType, pricePerNight, capacity);
      added := added + [room];
      r := Ok(room);
    }
  }

  /** The search criteria: the room type, and each price bound only when it is given
      (bounds are inclusive). */
  predicate MatchesSearch(room: Room, roomType: RoomType, minPrice: Option<real>, maxPrice: Option<real>) {
    && room.roomType == roomType
    && (minPrice.Some? ==> room.pricePerNight >= minPrice.value)
    && (maxPrice.Some? ==> room.pricePerNight <= maxPrice.value)
  }

  /** SearchRooms over the inventory the repository's GetAll returned: the matching rooms,
      in inventory order. */
  function SearchRooms(rooms: seq<Room>, roomType: RoomType, minPrice: Option<real>, maxPrice: Option<real>): (found: seq<Room>)
    ensures |found| <= |rooms|
  {
    if rooms == [] then []
    else if MatchesSearch(rooms[0], roomType, minPrice, maxPrice)
    then [rooms[0]] + SearchRooms(rooms[1..], roomType, minPrice, maxPrice)
    else SearchRooms(rooms[1..], roomType, minPrice, maxPrice)
  }

  /** A room is found iff it is in the inventory and meets the criteria. */
  lemma {:induction false} SearchRoomsMembers(rooms: seq<Room>, roomType: RoomType, minPrice: Option<real>, maxPrice: Option<real>)
    ensures forall x :: x in SearchRooms(rooms, roomType, minPrice, maxPrice) <==> x in rooms && MatchesSearch(x, roomType, minPrice, maxPrice)
  {
    if rooms != [] {
      SearchRoomsMembers(rooms[1..], roomType, minPrice, maxPrice);
      assert forall x :: x in rooms <==> x == rooms[0] || x in rooms[1..];
    }
  }

  /** Searching a concatenation searches each part, so results keep inventory order. */
  lemma {:induction false} SearchRoomsAppend(a: seq<Room>, b: seq<Room>, roomType: RoomType, minPrice: Option<real>, maxPrice: Option<real>)
    ensures SearchRooms(a + b, roomType, minPrice, maxPrice)
         == SearchRooms(a, roomType, minPrice, maxPrice) + SearchRooms(b, roomType, minPrice, maxPrice)
  {
    if a == [] {
      assert a + b == b;
    } else {
      assert (a + b)[0] == a[0] && (a + b)[1..] == a[1..] + b;
      SearchRoomsAppend(a[1..], b, roomType, minPrice, maxPrice);
    }
  }

  /** Without price bounds the search is a filter by type alone: one SIMPLE room out of a
      SIMPLE and a DOBLE room. */
  lemma SearchByTypeOnly(simple: Room, double: Room)
    requires simple.roomType == SIMPLE && double.roomType == DOBLE
    ensures SearchRooms([simple, double], SIMPLE, None, None) == [simple]
  {
    assert [simple, double][1..] == [double];
    assert [double][1..] == [];
  }

  /** A room is available for [startDate, endDate] when its status is DISPONIBLE and the
      repository reports no reservation of it in the range. */
  predicate Available(room: Room, startDate: Day, endDate: Day, hasReservation: (int, Day, Day) -> bool) {
    room.status == DISPONIBLE && !hasReservation(room.id, startDate, endDate)
  }

  /** CheckAvailability over the inventory: GetByStatus(DISPONIBLE) narrowed to the rooms
      with no reservation in the range, in inventory order. */
  function CheckAvailability(rooms: seq<Room>, startDate: Day, endDate: Day, hasReservation: (int, Day, Day) -> bool): (free: seq<Room>)
    ensures |free| <= |rooms|
  {
    if rooms == [] then []
    else if Available(rooms[0], startDate, endDate, hasReservation)
    then [rooms[0]] + CheckAvailability(rooms[1..], startDate, endDate, hasReservation)
    else CheckAvailability(rooms[1..], startDate, endDate, hasReservation)
  }

  /** A room is available iff it is in the inventory, DISPONIBLE, and free in the range. */
  lemma {:induction false} AvailableMembers(rooms: seq<Room>, startDate: Day, endDate: Day, hasReservation: (int, Day, Day) -> bool)
    ensures forall x :: x in CheckAvailability(rooms, startDate, endDate, hasReservation) <==> x in rooms && Available(x, startDate, endDate, hasReservation)
  {
    if rooms != [] {
      AvailableMembers(rooms[1..], startDate, endDate, hasReservation);
      assert forall x :: x in rooms <==> x == rooms[0] || x in rooms[1..];
    }
  }

  /** When no DISPONIBLE room has a reservation in the range, every DISPONIBLE room is
      available, in order: the whole list GetByStatus returned. */
  lemma {:induction false} AllFreeRoomsAvailable(rooms: seq<Room>, startDate: Day, endDate: Day, hasReservation: (int, Day, Day) -> bool)
    requires forall x :: x in rooms ==> x.status == DISPONIBLE && !hasReservation(x.id, startDate, endDate)
    ensures CheckAvailability(rooms, startDate, endDate, hasReservation) == rooms
  {
    if rooms != [] {
      assert rooms[0] in rooms;
      assert forall x :: x in rooms[1..] ==> x in rooms;
      AllFreeRoomsAvailable(rooms[1..], startDate, endDate, hasReservation);
    }
  }

  /** With no DISPONIBLE room in the inventory, nothing is available. */
  lemma NoFreeRoomsNoAvailability(rooms: seq<Room>, startDate: Day, endDate: Day, hasReservation: (int, Day, Day) -> bool)
    requires forall x :: x in rooms ==> x.status != DISPONIBLE
    ensures CheckAvailability(rooms, startDate, endDate, hasReservation) == []
  {
    AvailableMembers(rooms, startDate, endDate, hasReservation);
  }
}
