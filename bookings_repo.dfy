/** The bookings repository (src/repositories/bookings.py): today's check-ins,
    and allocation, which inserts a booking only while its room has a unit
    left for the whole stay. */
module BookingsRepo {
  import opened Wrappers
  import opened Seqs
  import opened Domain
  import opened Availability
  import opened Store

  /** The selection `date_from == today`. */
  function CheckinOn(today: Day): Booking -> bool {
    (b: Booking) => b.dateFrom == today
  }

  /** The bookings whose check-in day is `today` (the clock is a parameter), in table order. */
  function BookingsWithTodayCheckin(bookings: seq<Booking>, today: Day): (r: seq<Booking>)
    ensures forall b :: b in r <==> b in bookings && b.dateFrom == today
    ensures |r| <= |bookings|
  {
    Filter(bookings, CheckinOn(today))
  }

  // ----- occupancy and the no-oversell invariant -----

  /** A booking occupies a unit of its room on every day from check-in to check-out,
      both included, matching the inclusive overlap rule. */
  predicate Covers(b: Booking, day: Day) {
    b.dateFrom <= day <= b.dateTo
  }

  /** The number of bookings of room `roomId` that occupy it on `day`. */
  function Occupancy(bookings: seq<Booking>, roomId: int, day: Day): nat {
    if bookings == [] then 0
    else
      Occupancy(bookings[..|bookings| - 1], roomId, day)
      + (if bookings[|bookings| - 1].roomId == roomId && Covers(bookings[|bookings| - 1], day) then 1 else 0)
  }

  /** On no day does any room have more bookings than units. */
  ghost predicate NoOversell(rooms: seq<Room>, bookings: seq<Booking>) {
    forall r, day :: r in rooms ==> Occupancy(bookings, r.id, day) <= r.quantity
  }

  /** Every booking occupying the room on a day of the range overlaps the range, so the
      occupancy of that day is at most the room's overlapping count. */
  lemma {:induction false} OccupancyAtMostBookedCount(bookings: seq<Booking>, roomId: int, dateFrom: Day, dateTo: Day, day: Day)
    requires dateFrom <= day <= dateTo
    ensures Occupancy(bookings, roomId, day) <= BookedCount(bookings, roomId, dateFrom, dateTo)
    decreases |bookings|
  {
    if bookings != [] {
      OccupancyAtMostBookedCount(bookings[..|bookings| - 1], roomId, dateFrom, dateTo, day);
    }
  }

  /** Sequential no-oversell: appending a booking whose room the availability query returns,
      under any hotel scope, keeps every room within its quantity on every day. */
  lemma AllocationKeepsNoOversell(rooms: seq<Room>, bookings: seq<Booking>, nb: Booking, hotelId: Option<int>)
    requires DistinctBy(rooms, RoomKey)
    requires NoOversell(rooms, bookings)
    requires nb.roomId in RoomsIdsForBooking(rooms, bookings, nb.dateFrom, nb.dateTo, hotelId)
    ensures NoOversell(rooms, bookings + [nb])
  {
    var after := bookings + [nb];
    assert after[..|after| - 1] == bookings;
    forall r, day | r in rooms ensures Occupancy(after, r.id, day) <= r.quantity {
      assert Occupancy(bookings, r.id, day) <= r.quantity;
      if r.id == nb.roomId && Covers(nb, day) {
        var room :| room in rooms && room.id == nb.roomId
          && RoomsLeft(room, RoomsCount(bookings, nb.dateFrom, nb.dateTo)) > 0;
        SameKeySameRow(rooms, RoomKey, room, r);
        RoomsLeftIsQuantityMinusBooked(r, bookings, nb.dateFrom, nb.dateTo);
        OccupancyAtMostBookedCount(bookings, r.id, nb.dateFrom, nb.dateTo, day);
      }
    }
  }

  /** Under the scope of a hotel that is not the room's own, the room is never available,
      so allocation with that scope always fails. */
  lemma ForeignHotelNeverAvailable(rooms: seq<Room>, bookings: seq<Booking>, dateFrom: Day, dateTo: Day, hotelId: int, room: Room)
    requires DistinctBy(rooms, RoomKey)
    requires room in rooms && room.hotelId != hotelId
    ensures room.id !in RoomsIdsForBooking(rooms, bookings, dateFrom, dateTo, Some(hotelId))
  {
    AvailableIff(rooms, bookings, dateFrom, dateTo, Some(hotelId), room);
  }

  // ----- allocation -----

  /** `add_booking`: recompute the free rooms of hotel `hotelId` for the stay and insert the
      booking if its room is among them; otherwise fail with AllRoomsAreBooked and change nothing. */
  method AddBooking(db: Db, data: BookingAdd, hotelId: int) returns (r: Result<Booking, Error>)
    requires db.Valid()
    modifies db
    ensures db.Valid()
    ensures data.roomId in RoomsIdsForBooking(old(db.rooms), old(db.bookings), data.dateFrom, data.dateTo, Some(hotelId))
      ==> r == Success(Stored(old(db.nextBookingId), data)) && db.bookings == old(db.bookings) + [r.value]
    ensures data.roomId !in RoomsIdsForBooking(old(db.rooms), old(db.bookings), data.dateFrom, data.dateTo, Some(hotelId))
      ==> r == Failure(AllRoomsAreBooked) && db.bookings == old(db.bookings)
    ensures db.hotels == old(db.hotels) && db.rooms == old(db.rooms) && db.links == old(db.links)
    ensures db.nextBookingId == old(db.nextBookingId) + (if r.Success? then 1 else 0)
    ensures db.nextHotelId == old(db.nextHotelId) && db.nextRoomId == old(db.nextRoomId) && db.nextLinkId == old(db.nextLinkId)
    ensures NoOversell(old(db.rooms), old(db.bookings)) ==> NoOversell(db.rooms, db.bookings)
  {
    var free := RoomsIdsForBooking(db.rooms, db.bookings, data.dateFrom, data.dateTo, Some(hotelId));
    if data.roomId in free {
      ghost var before := db.bookings;
      var b := db.InsertBooking(data);
      assert NoOversell(db.rooms, before) ==> NoOversell(db.rooms, db.bookings) by {
        if NoOversell(db.rooms, before) {
          AllocationKeepsNoOversell(db.rooms, before, b, Some(hotelId));
        }
      }
      return Success(b);
    }
    return Failure(AllRoomsAreBooked);
  }
}
