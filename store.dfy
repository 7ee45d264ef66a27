/** The relational store the repositories read and write, as one object whose
    tables are sequences of rows and whose primary keys come from counters. */
module Store {
  import opened Wrappers
  import opened Seqs
  import opened Domain

  class Db {
    var hotels: seq<Hotel>
    var rooms: seq<Room>
    var bookings: seq<Booking>
    var links: seq<RoomFacility>
    var nextHotelId: int
    var nextRoomId: int
    var nextBookingId: int
    var nextLinkId: int

    /** Primary keys are unique and below the next key to be assigned, and every
      facility link names a room id the store has handed out. */
    ghost predicate Valid()
      reads this
    {
      && DistinctBy(hotels, HotelKey) && (forall h :: h in hotels ==> h.id < nextHotelId)
      && DistinctBy(rooms, RoomKey) && (forall r :: r in rooms ==> r.id < nextRoomId)
      && (forall b :: b in bookings ==> b.id < nextBookingId)
      && (forall l :: l in links ==> l.id < nextLinkId && l.roomId < nextRoomId)
    }

    constructor ()
      ensures Valid()
      ensures hotels == [] && rooms == [] && bookings == [] && links == []
    {
      hotels, rooms, bookings, links := [], [], [], [];
      nextHotelId, nextRoomId, nextBookingId, nextLinkId := 1, 1, 1, 1;
    }

    /** `add` on the bookings table: one row with the next id, returned as stored. */
    method InsertBooking(data: BookingAdd) returns (b: Booking)
      requires Valid()
      modifies this
      ensures Valid()
      ensures b == Stored(old(nextBookingId), data)
      ensures bookings == old(bookings) + [b] && nextBookingId == old(nextBookingId) + 1
      ensures hotels == old(hotels) && rooms == old(rooms) && links == old(links)
      ensures nextHotelId == old(nextHotelId) && nextRoomId == old(nextRoomId) && nextLinkId == old(nextLinkId)
    {
      b := Stored(nextBookingId, data);
      bookings := bookings + [b];
      nextBookingId := nextBookingId + 1;
    }

    /** `add` on the rooms table: one row with the next id, returned as stored. */
    method InsertRoom(hotelId: int, title: string, description: Option<string>, price: int, quantity: int) returns (room: Room)
      requires Valid()
      modifies this
      ensures Valid()
      ensures room == Room(old(nextRoomId), hotelId, title, description, price, quantity)
      ensures rooms == old(rooms) + [room] && nextRoomId == old(nextRoomId) + 1
      ensures hotels == old(hotels) && bookings == old(bookings) && links == old(links)
      ensures nextHotelId == old(nextHotelId) && nextBookingId == old(nextBookingId) && nextLinkId == old(nextLinkId)
    {
      room := Room(nextRoomId, hotelId, title, description, price, quantity);
      assert DistinctBy(rooms + [room], RoomKey) by {
        var s := rooms + [room];
        forall i, j | 0 <= i < j < |s| ensures RoomKey(s[i]) != RoomKey(s[j]) {
          if j == |s| - 1 { assert s[i] in rooms; }
        }
      }
      rooms := rooms + [room];
      nextRoomId := nextRoomId + 1;
    }

    /** `add_bulk` on the link table: one row per element of `data`, in order, with consecutive ids. */
    method AddBulk(data: seq<RoomFacilityAdd>)
      requires Valid()
      requires forall d :: d in data ==> d.roomId < nextRoomId
      modifies this
      ensures Valid()
      ensures links == old(links) + NewLinks(old(nextLinkId), data)
      ensures nextLinkId == old(nextLinkId) + |data|
      ensures hotels == old(hotels) && rooms == old(rooms) && bookings == old(bookings)
      ensures nextHotelId == old(nextHotelId) && nextRoomId == old(nextRoomId) && nextBookingId == old(nextBookingId)
    {
      links := links + NewLinks(nextLinkId, data);
      nextLinkId := nextLinkId + |data|;
    }
  }

  /** The link rows `add_bulk` stores for `data`, numbered from `firstId`. */
  function NewLinks(firstId: int, data: seq<RoomFacilityAdd>): (links: seq<RoomFacility>)
    ensures |links| == |data|
    ensures forall l :: l in links ==> firstId <= l.id < firstId + |data|
    ensures forall l :: l in links ==> exists d :: d in data && l.roomId == d.roomId && l.facilityId == d.facilityId
  {
    seq(|data|, i requires 0 <= i < |data| => RoomFacility(firstId + i, data[i].roomId, data[i].facilityId))
  }

  /** Some booking or facility link still names the room: the foreign keys `bookings.room_id`
      and `rooms_facilities.room_id` have no ON DELETE rule, so the database refuses to delete it. */
  predicate RoomReferenced(bookings: seq<Booking>, links: seq<RoomFacility>, roomId: int) {
    (exists b :: b in bookings && b.roomId == roomId) || (exists l :: l in links && l.roomId == roomId)
  }

  /** `get_one(id=...)` on a table: the first row whose key is that id, or nothing. */
  function FindByKey<T(!new)>(rows: seq<T>, key: T -> int, id: int): (r: Option<T>)
    ensures r.Some? ==> r.value in rows && key(r.value) == id
    ensures r.None? <==> forall x :: x in rows ==> key(x) != id
  {
    if rows == [] then None
    else if key(rows[0]) == id then Some(rows[0])
    else FindByKey(rows[1..], key, id)
  }
}
