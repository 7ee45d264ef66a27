/** The booking service (src/services/bookings.py): look the room up, snapshot its
    price, and allocate in the scope of the room's own hotel. */
module BookingService {
  import opened Wrappers
  import opened Domain
  import opened Availability
  import opened Store
  import BookingsRepo

  /** What the client sends: the room and the stay; the user and the price come from the server. */
  datatype BookingAddRequest = BookingAddRequest(roomId: int, dateFrom: Day, dateTo: Day)

  /** `add_booking`. An unknown room fails with RoomNotFound; a room whose hotel row is missing
      fails with the lookup's ObjectNotFound; otherwise the booking, priced at the room's current
      price and owned by `userId`, is stored exactly when the room has a unit left for the stay
      among the rooms of its own hotel, and AllRoomsAreBooked is raised when it has none.
      Nothing is stored on any failure; the final commit is the identity on this store. */
  method AddBooking(db: Db, userId: int, req: BookingAddRequest) returns (r: Result<Booking, Error>)
    requires db.Valid()
    modifies db
    ensures db.Valid()
    ensures db.hotels == old(db.hotels) && db.rooms == old(db.rooms) && db.links == old(db.links)
    ensures db.nextBookingId == old(db.nextBookingId) + (if r.Success? then 1 else 0)
    ensures db.nextHotelId == old(db.nextHotelId) && db.nextRoomId == old(db.nextRoomId) && db.nextLinkId == old(db.nextLinkId)
    ensures FindByKey(old(db.rooms), RoomKey, req.roomId).None? ==> r == Failure(RoomNotFound)
    ensures var room := FindByKey(old(db.rooms), RoomKey, req.roomId);
      room.Some? && FindByKey(old(db.hotels), HotelKey, room.value.hotelId).None? ==> r == Failure(ObjectNotFound)
    ensures var room := FindByKey(old(db.rooms), RoomKey, req.roomId);
      room.Some? && FindByKey(old(db.hotels), HotelKey, room.value.hotelId).Some? ==>
        && (r.Success? <==> req.roomId in RoomsIdsForBooking(old(db.rooms), old(db.bookings), req.dateFrom, req.dateTo, Some(room.value.hotelId)))
        && (r.Failure? ==> r.error == AllRoomsAreBooked)
    ensures r.Success? ==>
      && r.value == Booking(old(db.nextBookingId), userId, req.roomId, req.dateFrom, req.dateTo,
                            FindByKey(old(db.rooms), RoomKey, req.roomId).value.price)
      && db.bookings == old(db.bookings) + [r.value]
    ensures r.Failure? ==> db.bookings == old(db.bookings)
    ensures BookingsRepo.NoOversell(old(db.rooms), old(db.bookings)) ==> BookingsRepo.NoOversell(db.rooms, db.bookings)
  {
    var room := FindByKey(db.rooms, RoomKey, req.roomId);
    if room.None? {
      return Failure(RoomNotFound);
    }
    var hotel := FindByKey(db.hotels, HotelKey, room.value.hotelId);
    if hotel.None? {
      return Failure(ObjectNotFound);
    }
    var data := BookingAdd(userId, req.roomId, req.dateFrom, req.dateTo, room.value.price);
    r := BookingsRepo.AddBooking(db, data, hotel.value.id);
  }
}
