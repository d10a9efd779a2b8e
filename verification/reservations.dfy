/** Reservation rules: date validation on registration, cancelling one room of a
    reservation, and the booking history of a client. Repository calls are recorded
    as traces (Add, Update) or taken as the values the repository returned. */
module Reservations {
  import opened Outcomes

  /** The link between a reservation and one of its rooms. */
  datatype ReservationRoom = ReservationRoom(reservationId: int, roomId: int)

  const InvalidDatesMessage: string := "Las fechas de la reserva son inválidas."
  const MissingReservationMessage: string := "La reserva no existe."

  /** A reservation; its room list is changed in place when a room is cancelled. */
  class Reservation {
    var id: int
    var startDate: Day
    var endDate: Day
    var reservationRooms: seq<ReservationRoom>

    constructor (id: int, startDate: Day, endDate: Day)
      ensures this.id == id && this.startDate == startDate && this.endDate == endDate
      ensures reservationRooms == []
    {
      this.id := id;
      this.startDate := startDate;
      this.endDate := endDate;
      reservationRooms := [];
    }

    /** ReservationRooms.Add: the link goes at the end of the list. */
    method AddRoom(room: ReservationRoom)
      modifies this
      ensures reservationRooms == old(reservationRooms) + [room]
      ensures id == old(id) && startDate == old(startDate) && endDate == old(endDate)
    {
      reservationRooms := reservationRooms + [room];
    }
  }

  /** Accepted dates: the stay does not end before it starts. */
  predicate ValidDates(startDate: Day, endDate: Day) {
    startDate <= endDate
  }

  /** The number of links in `rooms` to room `roomId`. */
  function CountRoom(rooms: seq<ReservationRoom>, roomId: int): (n: nat)
    ensures n <= |rooms|
  {
    if rooms == [] then 0
    else (if rooms[0].roomId == roomId then 1 else 0) + CountRoom(rooms[1..], roomId)
  }

  /** `rooms` without its links to room `roomId`; every other link is kept, in order. */
  function WithoutRoom(rooms: seq<ReservationRoom>, roomId: int): (kept: seq<ReservationRoom>)
    ensures |kept| == |rooms| - CountRoom(rooms, roomId)
  {
    if rooms == [] then []
    else if rooms[0].roomId == roomId then WithoutRoom(rooms[1..], roomId)
    else [rooms[0]] + WithoutRoom(rooms[1..], roomId)
  }

  /** The links kept are exactly those to other rooms. */
  lemma {:induction false} WithoutRoomMembers(rooms: seq<ReservationRoom>, roomId: int)
    ensures forall x :: x in WithoutRoom(rooms, roomId) <==> x in rooms && x.roomId != roomId
  {
    if rooms != [] {
      WithoutRoomMembers(rooms[1..], roomId);
      assert forall x :: x in rooms <==> x == rooms[0] || x in rooms[1..];
    }
  }

  /** Removing a room's links distributes over concatenation, so the order of the
      links that stay is the order they had. */
  lemma {:induction false} WithoutRoomAppend(a: seq<ReservationRoom>, b: seq<ReservationRoom>, roomId: int)
    ensures WithoutRoom(a + b, roomId) == WithoutRoom(a, roomId) + WithoutRoom(b, roomId)
  {
    if a == [] {
      assert a + b == b;
    } else {
      assert (a + b)[0] == a[0] && (a + b)[1..] == a[1..] + b;
      WithoutRoomAppend(a[1..], b, roomId);
    }
  }

  /** A list with no link to the room is left as it is. */
  lemma {:induction false} WithoutAbsentRoom(rooms: seq<ReservationRoom>, roomId: int)
    requires CountRoom(rooms, roomId) == 0
    ensures WithoutRoom(rooms, roomId) == rooms
  {
    if rooms != [] {
      WithoutAbsentRoom(rooms[1..], roomId);
    }
  }

  /** The reservation service, with the calls it made to the reservation repository. */
  class ReservationService {
    /** The reservations passed to the repository's Add, in call order. */
    var added: seq<Reservation>
    /** The reservations passed to the repository's Update, in call order. */
    var updated: seq<Reservation>

    constructor ()
      ensures added == [] && updated == []
    {
      added := [];
      updated := [];
    }

    /** RegisterReservation: a reservation with valid dates is added once; one whose start
        is after its end is refused and nothing is added. */
    method RegisterReservation(reservation: Reservation) returns (r: Outcome)
      modifies this
      ensures r.Pass? <==> ValidDates(reservation.startDate, reservation.endDate)
      ensures r.Fail? ==> r.error == Failure(InvalidDatesMessage)
      ensures added == if r.Pass? then old(added) + [reservation] else old(added)
      ensures updated == old(updated)
    {
      if !ValidDates(reservation.startDate, reservation.endDate) {
        return Fail(Failure(InvalidDatesMessage));
      }
      added := added + [reservation];
      r := Pass;
    }

    /** CancelRoomInReservation: `found` is what the repository's GetById returned for the
        reservation id. A missing reservation fails; otherwise the room's links are removed
        from the reservation in place and the reservation is updated once. */
    method CancelRoomInReservation(found: Reservation?, roomId: int) returns (r: Outcome)
      modifies this, found
      ensures found == null ==> r == Fail(Failure(MissingReservationMessage))
      ensures found == null ==> added == old(added) && updated == old(updated)
      ensures found != null ==>
        && r.Pass?
        && found.reservationRooms == WithoutRoom(old(found.reservationRooms), roomId)
        && found.id == old(found.id) && found.startDate == old(found.startDate) && found.endDate == old(found.endDate)
        && added == old(added)
        && updated == old(updated) + [found]
    {
      if found == null {
        return Fail(Failure(MissingReservationMessage));
      }
      found.reservationRooms := WithoutRoom(found.reservationRooms, roomId);
      updated := updated + [found];
      r := Pass;
    }

    /** GetReservationsByClientId: `byClient` is the repository's GetByClientId. The history
        is the list the repository holds for this client, unchanged, and empty when the
        client has no reservations. */
    method GetReservationsByClientId(clientId: int, byClient: int -> seq<Reservation>) returns (history: seq<Reservation>)
      ensures history == byClient(clientId)
    {
      history := byClient(clientId);
    }
  }

  /** Cancelling the only room of a reservation leaves it with no rooms and updates it once. */
  method CancelOnlyRoom()
  {
    var service := new ReservationService();
    var reservation := new Reservation(1, 0, 3);
    reservation.AddRoom(ReservationRoom(reservation.id, 1));
    var r := service.CancelRoomInReservation(reservation, 1);
    assert r.Pass?;
    assert |reservation.reservationRooms| == 0;
    assert service.updated == [reservation];
  }
}
