/** The entities of the booking store (hotels, rooms, bookings, room-facility
    links), the errors the services raise, and the cost of a booking. */
module Domain {
  import opened Wrappers

  /** A calendar date, counted in days. */
  type Day = int

  datatype Hotel = Hotel(id: int, title: string, location: string)

  /** A room type of a hotel: `quantity` physically identical rooms at one nightly `price`. */
  datatype Room = Room(id: int, hotelId: int, title: string, description: Option<string>, price: int, quantity: int)

  /** The data of a booking before the store assigns its id. */
  datatype BookingAdd = BookingAdd(userId: int, roomId: int, dateFrom: Day, dateTo: Day, price: int)

  /** A stored booking; `price` is the room's nightly price at booking time. */
  datatype Booking = Booking(id: int, userId: int, roomId: int, dateFrom: Day, dateTo: Day, price: int)

  /** A row of the room-to-facility link table, and its data before the store assigns its id. */
  datatype RoomFacility = RoomFacility(id: int, roomId: int, facilityId: int)
  datatype RoomFacilityAdd = RoomFacilityAdd(roomId: int, facilityId: int)

  /** The exceptions of the core, by the class the source raises. */
  datatype Error =
    | ObjectNotFound        // a `get_one` lookup found no row
    | RoomNotFound
    | HotelNotFound
    | AllRoomsAreBooked
    | InvalidDateRange      // the check that the stay ends after it starts
    | MultipleResultsFound  // `scalar_one` saw more than one row
    | HttpError(status: int)
    | ForeignKeyViolation   // the database refused a statement that would break a foreign key

  function RoomKey(r: Room): int { r.id }
  function HotelKey(h: Hotel): int { h.id }

  /** The date-range check the services run before a query: the stay must end after it starts. */
  predicate DateRangeOk(dateFrom: Day, dateTo: Day) { dateFrom < dateTo }

  /** The stored booking made from `data` under the id `id`. */
  function Stored(id: int, data: BookingAdd): (b: Booking)
    ensures b.id == id && b.userId == data.userId && b.roomId == data.roomId
    ensures b.dateFrom == data.dateFrom && b.dateTo == data.dateTo && b.price == data.price
  {
    Booking(id, data.userId, data.roomId, data.dateFrom, data.dateTo, data.price)
  }

  /** The `total_cost` of a booking: the nightly price times the number of nights. */
  function TotalCost(b: Booking): int {
    b.price * (b.dateTo - b.dateFrom)
  }

  /** A stay that checks out on its check-in day costs nothing. */
  lemma ZeroNightStayIsFree(b: Booking)
    requires b.dateTo == b.dateFrom
    ensures TotalCost(b) == 0
  {
  }

  /** A non-negative price over a range that does not run backwards never costs a negative amount. */
  lemma CostIsNonNegative(b: Booking)
    requires b.price >= 0 && b.dateTo >= b.dateFrom
    ensures TotalCost(b) >= 0
  {
  }

  /** Splitting a stay at any day in between splits its cost into two parts that add up. */
  lemma CostSplitsAtAnyDay(b: Booking, mid: Day)
    ensures TotalCost(b.(dateTo := mid)) + TotalCost(b.(dateFrom := mid)) == TotalCost(b)
  {
  }
}
