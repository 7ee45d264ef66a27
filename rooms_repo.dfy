/** The rooms repository (src/repositories/rooms.py): the free rooms of one hotel
    for a stay, and the lookup of exactly one room by a filter. */
module RoomsRepo {
  import opened Wrappers
  import opened Seqs
  import opened Domain
  import opened Availability

  /** The selection `id IN ids`. */
  function IdIn(ids: set<int>): Room -> bool {
    (r: Room) => r.id in ids
  }

  /** `get_filtered_by_time`: the rooms whose ids the availability query returns for hotel `hotelId`. */
  function GetFilteredByTime(rooms: seq<Room>, bookings: seq<Booking>, hotelId: int, dateFrom: Day, dateTo: Day): (r: seq<Room>)
    ensures forall x :: x in r <==> x in rooms && x.id in RoomsIdsForBooking(rooms, bookings, dateFrom, dateTo, Some(hotelId))
  {
    Filter(rooms, IdIn(RoomsIdsForBooking(rooms, bookings, dateFrom, dateTo, Some(hotelId))))
  }

  /** With room ids unique, the result is exactly the rooms of hotel `hotelId` that have a unit
      left for the whole stay. */
  lemma FreeRoomsOfHotel(rooms: seq<Room>, bookings: seq<Booking>, hotelId: int, dateFrom: Day, dateTo: Day, x: Room)
    requires DistinctBy(rooms, RoomKey)
    ensures x in GetFilteredByTime(rooms, bookings, hotelId, dateFrom, dateTo)
        <==> x in rooms && x.hotelId == hotelId && x.quantity - BookedCount(bookings, x.id, dateFrom, dateTo) > 0
  {
    if x in rooms {
      AvailableIff(rooms, bookings, dateFrom, dateTo, Some(hotelId), x);
    }
  }

  /** With room ids unique, no room is listed twice. */
  lemma NoRoomListedTwice(rooms: seq<Room>, bookings: seq<Booking>, hotelId: int, dateFrom: Day, dateTo: Day)
    requires DistinctBy(rooms, RoomKey)
    ensures DistinctBy(GetFilteredByTime(rooms, bookings, hotelId, dateFrom, dateTo), RoomKey)
  {
    FilterKeepsDistinct(rooms, IdIn(RoomsIdsForBooking(rooms, bookings, dateFrom, dateTo, Some(hotelId))), RoomKey);
  }

  /** The keyword filter of a lookup: each given column must equal its value. */
  datatype RoomFilter = RoomFilter(id: Option<int>, hotelId: Option<int>)

  predicate Selects(f: RoomFilter, r: Room) {
    (f.id.None? || r.id == f.id.value) && (f.hotelId.None? || r.hotelId == f.hotelId.value)
  }

  function SelectedBy(f: RoomFilter): Room -> bool {
    (r: Room) => Selects(f, r)
  }

  /** `get_one_with_rels`: the one room the filter selects; RoomNotFound when it selects none,
      and the driver's MultipleResultsFound, which nothing catches, when it selects several. */
  function GetOneWithRels(rooms: seq<Room>, f: RoomFilter): (r: Result<Room, Error>)
    ensures r == Failure(RoomNotFound) <==> forall x :: x in rooms ==> !Selects(f, x)
    ensures r.Success? ==> r.value in rooms && Selects(f, r.value)
    ensures r.Success? ==> forall x :: x in rooms && Selects(f, x) ==> x == r.value
    ensures r.Failure? ==> r.error == RoomNotFound || r.error == MultipleResultsFound
    ensures r == Failure(MultipleResultsFound) <==> |Filter(rooms, SelectedBy(f))| >= 2
  {
    var found := Filter(rooms, SelectedBy(f));
    if |found| == 0 then Failure(RoomNotFound)
    else if |found| == 1 then
      assert found[0] in found && forall x :: x in found ==> x == found[0];
      Success(found[0])
    else
      assert found[0] in found;
      Failure(MultipleResultsFound)
  }

  /** Under unique room ids a lookup by id never sees two rows. */
  lemma LookupByIdIsUnique(rooms: seq<Room>, id: int, hotelId: Option<int>)
    requires DistinctBy(rooms, RoomKey)
    ensures GetOneWithRels(rooms, RoomFilter(Some(id), hotelId)) != Failure(MultipleResultsFound)
  {
    var f := RoomFilter(Some(id), hotelId);
    var found := Filter(rooms, SelectedBy(f));
    FilterKeepsDistinct(rooms, SelectedBy(f), RoomKey);
    if |found| >= 2 {
      FirstTwoKeysDiffer(found, RoomKey);
      assert false;
    }
  }
}
