/** Which rooms can still be booked for a date range: the query built by
    `rooms_ids_for_booking` (src/repositories/utils.py), read as a set
    comprehension over the rooms and bookings tables. */
module Availability {
  import opened Wrappers
  import opened Seqs
  import opened Domain

  /** A booking overlaps the range when it starts no later than the range ends and
      ends no earlier than the range starts; both ends are inclusive. */
  predicate Overlaps(b: Booking, dateFrom: Day, dateTo: Day) {
    b.dateFrom <= dateTo && b.dateTo >= dateFrom
  }

  /** Whether booking `b` of room `roomId` takes a unit of that room in the range. */
  predicate Counts(b: Booking, roomId: int, dateFrom: Day, dateTo: Day) {
    b.roomId == roomId && Overlaps(b, dateFrom, dateTo)
  }

  /** The number of bookings of room `roomId` that overlap the range. */
  function BookedCount(bookings: seq<Booking>, roomId: int, dateFrom: Day, dateTo: Day): (n: nat)
    ensures n <= |bookings|
  {
    if bookings == [] then 0
    else
      BookedCount(bookings[..|bookings| - 1], roomId, dateFrom, dateTo)
      + (if Counts(bookings[|bookings| - 1], roomId, dateFrom, dateTo) then 1 else 0)
  }

  /** The ids of the rooms that have at least one overlapping booking (the groups of the count). */
  function BookedRoomIds(bookings: seq<Booking>, dateFrom: Day, dateTo: Day): set<int> {
    set b | b in bookings && Overlaps(b, dateFrom, dateTo) :: b.roomId
  }

  /** The `rooms_count` table: overlapping bookings grouped by room. A room without an
      overlapping booking has no entry at all, as a `GROUP BY` produces no empty group. */
  function RoomsCount(bookings: seq<Booking>, dateFrom: Day, dateTo: Day): map<int, nat> {
    map id | id in BookedRoomIds(bookings, dateFrom, dateTo) :: BookedCount(bookings, id, dateFrom, dateTo)
  }

  /** `rooms_left`: the room's quantity minus its count, a missing count read as 0 (the coalesce). */
  function RoomsLeft(room: Room, counts: map<int, nat>): int {
    room.quantity - (if room.id in counts then counts[room.id] else 0)
  }

  /** The ids of the rooms in the hotel scope: all rooms when no hotel is given. */
  function HotelRoomIds(rooms: seq<Room>, hotelId: Option<int>): set<int> {
    set r | r in rooms && (hotelId.None? || r.hotelId == hotelId.value) :: r.id
  }

  /** The ids of the rooms with a unit left for the whole range, within the hotel scope. */
  function RoomsIdsForBooking(rooms: seq<Room>, bookings: seq<Booking>, dateFrom: Day, dateTo: Day, hotelId: Option<int>): set<int> {
    var counts := RoomsCount(bookings, dateFrom, dateTo);
    var scope := HotelRoomIds(rooms, hotelId);
    set r | r in rooms && RoomsLeft(r, counts) > 0 && r.id in scope :: r.id
  }

  // ----- properties of the overlap rule -----

  /** A booking that checks out on the first day of the range, or checks in on its last day,
      overlaps it. */
  lemma TouchingBoundaryOverlaps(b: Booking, dateFrom: Day, dateTo: Day)
    requires b.dateFrom <= b.dateTo && dateFrom <= dateTo
    requires b.dateTo == dateFrom || b.dateFrom == dateTo
    ensures Overlaps(b, dateFrom, dateTo)
  {
  }

  /** The overlap rule does not depend on which of the two ranges is the booking. */
  lemma OverlapIsSymmetric(b: Booking, c: Booking)
    ensures Overlaps(b, c.dateFrom, c.dateTo) <==> Overlaps(c, b.dateFrom, b.dateTo)
  {
  }

  // ----- properties of the count -----

  /** The count of a concatenation is the sum of the counts. */
  lemma {:induction false} BookedCountAppend(xs: seq<Booking>, ys: seq<Booking>, roomId: int, dateFrom: Day, dateTo: Day)
    ensures BookedCount(xs + ys, roomId, dateFrom, dateTo)
         == BookedCount(xs, roomId, dateFrom, dateTo) + BookedCount(ys, roomId, dateFrom, dateTo)
    decreases |ys|
  {
    if ys == [] {
      assert xs + ys == xs;
    } else {
      assert (xs + ys)[..|xs + ys| - 1] == xs + ys[..|ys| - 1];
      BookedCountAppend(xs, ys[..|ys| - 1], roomId, dateFrom, dateTo);
    }
  }

  /** The count is positive exactly when some booking of the room overlaps the range. */
  lemma {:induction false} BookedCountPositiveIff(bookings: seq<Booking>, roomId: int, dateFrom: Day, dateTo: Day)
    ensures BookedCount(bookings, roomId, dateFrom, dateTo) > 0
        <==> exists b :: b in bookings && Counts(b, roomId, dateFrom, dateTo)
    decreases |bookings|
  {
    if bookings != [] {
      var init := bookings[..|bookings| - 1];
      assert bookings == init + [bookings[|bookings| - 1]];
      BookedCountPositiveIff(init, roomId, dateFrom, dateTo);
    }
  }

  /** Bookings of other rooms, and bookings wholly before or after the range, do not change
      a room's count, wherever they stand in the table. */
  lemma IrrelevantBookingsIgnored(xs: seq<Booking>, ys: seq<Booking>, zs: seq<Booking>, roomId: int, dateFrom: Day, dateTo: Day)
    requires forall b :: b in ys ==> b.roomId != roomId || b.dateTo < dateFrom || b.dateFrom > dateTo
    ensures BookedCount(xs + ys + zs, roomId, dateFrom, dateTo) == BookedCount(xs + zs, roomId, dateFrom, dateTo)
  {
    BookedCountAppend(xs + ys, zs, roomId, dateFrom, dateTo);
    BookedCountAppend(xs, ys, roomId, dateFrom, dateTo);
    BookedCountAppend(xs, zs, roomId, dateFrom, dateTo);
    BookedCountPositiveIff(ys, roomId, dateFrom, dateTo);
  }

  /** `rooms_left` is the quantity minus the number of overlapping bookings of the room. */
  lemma RoomsLeftIsQuantityMinusBooked(room: Room, bookings: seq<Booking>, dateFrom: Day, dateTo: Day)
    ensures RoomsLeft(room, RoomsCount(bookings, dateFrom, dateTo))
         == room.quantity - BookedCount(bookings, room.id, dateFrom, dateTo)
  {
    BookedCountPositiveIff(bookings, room.id, dateFrom, dateTo);
    if room.id !in BookedRoomIds(bookings, dateFrom, dateTo) {
      assert forall b :: b in bookings ==> !Counts(b, room.id, dateFrom, dateTo);
    }
  }

  /** A room without overlapping bookings has its whole quantity left (a missing count is 0). */
  lemma FreeRoomHasFullQuantity(room: Room, bookings: seq<Booking>, dateFrom: Day, dateTo: Day)
    requires forall b :: b in bookings && b.roomId == room.id ==> !Overlaps(b, dateFrom, dateTo)
    ensures room.id !in RoomsCount(bookings, dateFrom, dateTo)
    ensures RoomsLeft(room, RoomsCount(bookings, dateFrom, dateTo)) == room.quantity
  {
  }

  // ----- properties of the result -----

  /** With room ids unique, a room is returned exactly when it has a unit left for the range
      and lies in the hotel scope. */
  lemma AvailableIff(rooms: seq<Room>, bookings: seq<Booking>, dateFrom: Day, dateTo: Day, hotelId: Option<int>, room: Room)
    requires DistinctBy(rooms, RoomKey)
    requires room in rooms
    ensures room.id in RoomsIdsForBooking(rooms, bookings, dateFrom, dateTo, hotelId)
        <==> room.quantity - BookedCount(bookings, room.id, dateFrom, dateTo) > 0
             && (hotelId.None? || room.hotelId == hotelId.value)
  {
    var counts := RoomsCount(bookings, dateFrom, dateTo);
    RoomsLeftIsQuantityMinusBooked(room, bookings, dateFrom, dateTo);
    if room.id in RoomsIdsForBooking(rooms, bookings, dateFrom, dateTo, hotelId) {
      var r :| r in rooms && RoomsLeft(r, counts) > 0 && r.id in HotelRoomIds(rooms, hotelId) && r.id == room.id;
      SameKeySameRow(rooms, RoomKey, r, room);
      var s :| s in rooms && (hotelId.None? || s.hotelId == hotelId.value) && s.id == room.id;
      SameKeySameRow(rooms, RoomKey, s, room);
    }
  }

  /** Every id returned under a hotel scope is the id of a room of that hotel; with unique
      room ids, every such room belongs to the hotel. */
  lemma ScopedResultBelongsToHotel(rooms: seq<Room>, bookings: seq<Booking>, dateFrom: Day, dateTo: Day, hotelId: int, room: Room)
    requires DistinctBy(rooms, RoomKey)
    requires room in rooms && room.id in RoomsIdsForBooking(rooms, bookings, dateFrom, dateTo, Some(hotelId))
    ensures room.hotelId == hotelId
  {
    AvailableIff(rooms, bookings, dateFrom, dateTo, Some(hotelId), room);
  }

  /** Without a hotel scope the result is every room with a unit left, whatever its hotel. */
  lemma UnscopedResultHasNoHotelRestriction(rooms: seq<Room>, bookings: seq<Booking>, dateFrom: Day, dateTo: Day)
    ensures RoomsIdsForBooking(rooms, bookings, dateFrom, dateTo, None)
         == set r | r in rooms && r.quantity - BookedCount(bookings, r.id, dateFrom, dateTo) > 0 :: r.id
  {
    var lhs := RoomsIdsForBooking(rooms, bookings, dateFrom, dateTo, None);
    var rhs := set r | r in rooms && r.quantity - BookedCount(bookings, r.id, dateFrom, dateTo) > 0 :: r.id;
    forall r | r in rooms {
      RoomsLeftIsQuantityMinusBooked(r, bookings, dateFrom, dateTo);
    }
    assert lhs <= rhs;
    assert rhs <= lhs;
  }

  /** Adding bookings can only take rooms out of the result, never put one in. */
  lemma MoreBookingsNeverFreeARoom(rooms: seq<Room>, bookings: seq<Booking>, more: seq<Booking>, dateFrom: Day, dateTo: Day, hotelId: Option<int>)
    ensures RoomsIdsForBooking(rooms, bookings + more, dateFrom, dateTo, hotelId)
         <= RoomsIdsForBooking(rooms, bookings, dateFrom, dateTo, hotelId)
  {
    forall r | r in rooms
      ensures RoomsLeft(r, RoomsCount(bookings + more, dateFrom, dateTo)) <= RoomsLeft(r, RoomsCount(bookings, dateFrom, dateTo))
    {
      RoomsLeftIsQuantityMinusBooked(r, bookings + more, dateFrom, dateTo);
      RoomsLeftIsQuantityMinusBooked(r, bookings, dateFrom, dateTo);
      BookedCountAppend(bookings, more, r.id, dateFrom, dateTo);
    }
  }

  /** A room id that is not in the rooms table is never available. */
  lemma UnknownRoomNeverAvailable(rooms: seq<Room>, bookings: seq<Booking>, dateFrom: Day, dateTo: Day, hotelId: Option<int>, roomId: int)
    requires forall r :: r in rooms ==> r.id != roomId
    ensures roomId !in RoomsIdsForBooking(rooms, bookings, dateFrom, dateTo, hotelId)
  {
  }
}
