/** The room service: free-room listing and lookups, and the create, edit,
    partial-edit and delete operations that check the hotel and the room before
    they touch the rooms table and the facility links. */
module RoomService {
  import opened Wrappers
  import opened Seqs
  import opened Domain
  import opened Availability
  import opened Store
  import opened BaseRepo
  import opened FacilitiesRepo
  import RoomsRepo
  import HotelService

  /** The body of a room create or full update: every column, and the facility ids to link. */
  datatype RoomAddRequest = RoomAddRequest(
    title: string, description: Option<string>, price: int, quantity: int, facilitiesIds: seq<int>)

  /** The body of a partial update. Each field is `Some` exactly when the client supplied it. */
  datatype RoomPatchRequest = RoomPatchRequest(
    title: Option<string>, description: Option<Option<string>>, price: Option<int>, quantity: Option<int>,
    facilitiesIds: Option<seq<int>>)

  /** `get_filtered_by_time`: the date check, then the free rooms of the hotel. */
  function GetFilteredByTime(rooms: seq<Room>, bookings: seq<Booking>, hotelId: int, dateFrom: Day, dateTo: Day): (r: Result<seq<Room>, Error>)
    ensures r.Failure? <==> !DateRangeOk(dateFrom, dateTo)
    ensures r.Failure? ==> r.error == InvalidDateRange
    ensures r.Success? ==> forall x :: x in r.value <==>
      x in rooms && x.id in RoomsIdsForBooking(rooms, bookings, dateFrom, dateTo, Some(hotelId))
  {
    if !DateRangeOk(dateFrom, dateTo) then Failure(InvalidDateRange)
    else
      Success(RoomsRepo.GetFilteredByTime(rooms, bookings, hotelId, dateFrom, dateTo))
  }

  /** `get_room`: the room with that id in that hotel, or RoomNotFound. */
  function GetRoom(rooms: seq<Room>, roomId: int, hotelId: int): (r: Result<Room, Error>)
    requires DistinctBy(rooms, RoomKey)
    ensures r.Failure? <==> forall x :: x in rooms ==> !(x.id == roomId && x.hotelId == hotelId)
    ensures r.Failure? ==> r.error == RoomNotFound
    ensures r.Success? ==> r.value in rooms && r.value.id == roomId && r.value.hotelId == hotelId
  {
    RoomsRepo.LookupByIdIsUnique(rooms, roomId, Some(hotelId));
    RoomsRepo.GetOneWithRels(rooms, RoomsRepo.RoomFilter(Some(roomId), Some(hotelId)))
  }

  /** `get_room_with_check`: the room with that id in any hotel, or RoomNotFound. */
  function GetRoomWithCheck(rooms: seq<Room>, roomId: int): (r: Result<Room, Error>)
    ensures r.Failure? <==> forall x :: x in rooms ==> x.id != roomId
    ensures r.Failure? ==> r.error == RoomNotFound
    ensures r.Success? ==> r.value in rooms && r.value.id == roomId
  {
    match FindByKey(rooms, RoomKey, roomId)
    case None => Failure(RoomNotFound)
    case Some(x) => Success(x)
  }

  /** `create_room`. A missing hotel fails with HotelNotFound and changes nothing. Otherwise one
      room is stored under the next id with the path's hotel id and the request's columns, and
      one link per listed facility id is stored for it, so that the new room has exactly the
      listed facilities; no other room's links change. */
  method CreateRoom(db: Db, hotelId: int, req: RoomAddRequest) returns (r: Outcome<Error>)
    requires db.Valid()
    modifies db
    ensures db.Valid()
    ensures r.Fail? <==> forall h :: h in old(db.hotels) ==> h.id != hotelId
    ensures r.Fail? ==> r.error == HotelNotFound && db.rooms == old(db.rooms) && db.links == old(db.links)
    ensures r.Pass? ==>
      var room := Room(old(db.nextRoomId), hotelId, req.title, req.description, req.price, req.quantity);
      && db.rooms == old(db.rooms) + [room]
      && db.links == old(db.links) + NewLinks(old(db.nextLinkId), LinkRequests(room.id, req.facilitiesIds))
      && FacilityIdsByRoom(db.links, room.id) == set f | f in req.facilitiesIds
    ensures req.facilitiesIds == [] ==> db.links == old(db.links)
    ensures db.hotels == old(db.hotels) && db.bookings == old(db.bookings)
    ensures db.nextRoomId == old(db.nextRoomId) + (if r.Pass? then 1 else 0)
    ensures db.nextLinkId == old(db.nextLinkId) + (if r.Pass? then |req.facilitiesIds| else 0)
    ensures db.nextHotelId == old(db.nextHotelId) && db.nextBookingId == old(db.nextBookingId)
  {
    var hotel := HotelService.GetHotelWithCheck(db.hotels, hotelId);
    if hotel.Failure? {
      return Fail(HotelNotFound);
    }
    var room := db.InsertRoom(hotelId, req.title, req.description, req.price, req.quantity);
    var data := LinkRequests(room.id, req.facilitiesIds);
    ghost var before := db.links;
    ghost var firstId := db.nextLinkId;
    if data != [] {
      db.AddBulk(data);
    }
    NewLinksOfRoom(firstId, room.id, req.facilitiesIds);
    FacilityIdsOfAppend(before, NewLinks(firstId, data), room.id);
    assert forall l :: l in before ==> l.roomId != room.id;
    assert FacilityIdsByRoom(before, room.id) == {};
    return Pass;
  }

  /** `edit_room` (PUT). A missing hotel fails with HotelNotFound and a missing room with
      RoomNotFound, both before any change. Otherwise the room's columns are replaced by the
      request's, its hotel becomes the path's hotel, and its facilities become exactly the
      listed ones; the other rooms and their links keep their state. */
  method EditRoom(db: Db, hotelId: int, roomId: int, req: RoomAddRequest) returns (r: Outcome<Error>)
    requires db.Valid()
    modifies db
    ensures db.Valid()
    ensures (forall h :: h in old(db.hotels) ==> h.id != hotelId) ==> r == Fail(HotelNotFound)
    ensures (exists h :: h in old(db.hotels) && h.id == hotelId) && (forall x :: x in old(db.rooms) ==> x.id != roomId)
      ==> r == Fail(RoomNotFound)
    ensures r.Fail? ==> db.rooms == old(db.rooms) && db.links == old(db.links)
    ensures r.Pass? <==> (exists h :: h in old(db.hotels) && h.id == hotelId) && (exists x :: x in old(db.rooms) && x.id == roomId)
    ensures r.Pass? ==>
      && db.rooms == Updated(old(db.rooms), HasKey(RoomKey, roomId), PatchRoom(FullPatch(hotelId, req)))
      && FacilityIdsByRoom(db.links, roomId) == (set f | f in req.facilitiesIds)
      && forall other :: other != roomId ==> Filter(db.links, OfRoom(other)) == Filter(old(db.links), OfRoom(other))
    ensures db.hotels == old(db.hotels) && db.bookings == old(db.bookings)
    ensures db.nextHotelId == old(db.nextHotelId) && db.nextRoomId == old(db.nextRoomId) && db.nextBookingId == old(db.nextBookingId)
    ensures db.nextLinkId == old(db.nextLinkId) + (if r.Pass? then |req.facilitiesIds| else 0)
  {
    var hotel := HotelService.GetHotelWithCheck(db.hotels, hotelId);
    if hotel.Failure? {
      return Fail(HotelNotFound);
    }
    var room := GetRoomWithCheck(db.rooms, roomId);
    if room.Failure? {
      return Fail(RoomNotFound);
    }
    KeyedFilterOutcome(db.rooms, RoomKey, HasKey(RoomKey, roomId), roomId, PatchRoom(FullPatch(hotelId, req)));
    r := EditRooms(db, HasKey(RoomKey, roomId), FullPatch(hotelId, req));
    if r.Pass? {
      SetRoomFacilities(db, roomId, req.facilitiesIds);
    }
  }

  /** The payload of a full update: every column of the request, and the path's hotel. */
  function FullPatch(hotelId: int, req: RoomAddRequest): (p: RoomPatch)
    ensures forall x :: PatchRoom(p)(x) == Room(x.id, hotelId, req.title, req.description, req.price, req.quantity)
  {
    RoomPatch(Some(hotelId), Some(req.title), Some(req.description), Some(req.price), Some(req.quantity))
  }

  /** The payload of a partial update: the supplied columns, and the path's hotel. */
  function PartialPatch(hotelId: int, req: RoomPatchRequest): RoomPatch {
    RoomPatch(Some(hotelId), req.title, req.description, req.price, req.quantity)
  }

  /** The filter `id=room_id, hotel_id=hotel_id` of the partial update and the delete. */
  function InHotel(roomId: int, hotelId: int): (p: Room -> bool)
    ensures forall x :: p(x) <==> x.id == roomId && x.hotelId == hotelId
  {
    RoomsRepo.SelectedBy(RoomsRepo.RoomFilter(Some(roomId), Some(hotelId)))
  }

  /** `partially_edit_room` (PATCH). A missing hotel or room fails as in the full update. A room of
      another hotel makes the filtered update fail with 404 and nothing changes. Otherwise only the
      supplied columns change, and the facility links are replaced only if `facilitiesIds` was
      supplied; with it absent every link is kept. */
  method PartiallyEditRoom(db: Db, hotelId: int, roomId: int, req: RoomPatchRequest) returns (r: Outcome<Error>)
    requires db.Valid()
    modifies db
    ensures db.Valid()
    ensures (forall h :: h in old(db.hotels) ==> h.id != hotelId) ==> r == Fail(HotelNotFound)
    ensures (exists h :: h in old(db.hotels) && h.id == hotelId) && (forall x :: x in old(db.rooms) ==> x.id != roomId)
      ==> r == Fail(RoomNotFound)
    ensures (exists h :: h in old(db.hotels) && h.id == hotelId) && (exists x :: x in old(db.rooms) && x.id == roomId)
      && (forall x :: x in old(db.rooms) && x.id == roomId ==> x.hotelId != hotelId)
      ==> r == Fail(HttpError(404))
    ensures r.Fail? ==> db.rooms == old(db.rooms) && db.links == old(db.links)
    ensures r.Pass? <==> ((exists h :: h in old(db.hotels) && h.id == hotelId)
                       && (exists x :: x in old(db.rooms) && x.id == roomId && x.hotelId == hotelId))
    ensures r.Pass? ==> db.rooms == Updated(old(db.rooms), InHotel(roomId, hotelId), PatchRoom(PartialPatch(hotelId, req)))
    ensures r.Pass? && req.facilitiesIds.None? ==> db.links == old(db.links)
    ensures r.Pass? && req.facilitiesIds.Some? ==>
      && FacilityIdsByRoom(db.links, roomId) == (set f | f in req.facilitiesIds.value)
      && forall other :: other != roomId ==> Filter(db.links, OfRoom(other)) == Filter(old(db.links), OfRoom(other))
    ensures db.hotels == old(db.hotels) && db.bookings == old(db.bookings)
    ensures db.nextHotelId == old(db.nextHotelId) && db.nextRoomId == old(db.nextRoomId) && db.nextBookingId == old(db.nextBookingId)
    ensures db.nextLinkId == old(db.nextLinkId) + (if r.Pass? && req.facilitiesIds.Some? then |req.facilitiesIds.value| else 0)
  {
    var hotel := HotelService.GetHotelWithCheck(db.hotels, hotelId);
    if hotel.Failure? {
      return Fail(HotelNotFound);
    }
    var room := GetRoomWithCheck(db.rooms, roomId);
    if room.Failure? {
      return Fail(RoomNotFound);
    }
    KeyedFilterOutcome(db.rooms, RoomKey, InHotel(roomId, hotelId), roomId, PatchRoom(PartialPatch(hotelId, req)));
    r := EditRooms(db, InHotel(roomId, hotelId), PartialPatch(hotelId, req));
    if r.Pass? && req.facilitiesIds.Some? {
      SetRoomFacilities(db, roomId, req.facilitiesIds.value);
    }
  }

  /** `delete_room`. A missing hotel or room fails as in the updates; a room of another hotel makes
      the filtered delete fail with 404; a room that bookings or facility links still name is
      refused by the database. Otherwise exactly that room leaves the table. */
  method DeleteRoom(db: Db, hotelId: int, roomId: int) returns (r: Outcome<Error>)
    requires db.Valid()
    modifies db
    ensures db.Valid()
    ensures (forall h :: h in old(db.hotels) ==> h.id != hotelId) ==> r == Fail(HotelNotFound)
    ensures (exists h :: h in old(db.hotels) && h.id == hotelId) && (forall x :: x in old(db.rooms) ==> x.id != roomId)
      ==> r == Fail(RoomNotFound)
    ensures (exists h :: h in old(db.hotels) && h.id == hotelId) && (exists x :: x in old(db.rooms) && x.id == roomId)
      && (forall x :: x in old(db.rooms) && x.id == roomId ==> x.hotelId != hotelId)
      ==> r == Fail(HttpError(404))
    ensures (exists h :: h in old(db.hotels) && h.id == hotelId)
      && (exists x :: x in old(db.rooms) && x.id == roomId && x.hotelId == hotelId)
      && RoomReferenced(old(db.bookings), old(db.links), roomId)
      ==> r == Fail(ForeignKeyViolation)
    ensures r.Fail? ==> db.rooms == old(db.rooms)
    ensures r.Pass? <==> ((exists h :: h in old(db.hotels) && h.id == hotelId)
                       && (exists x :: x in old(db.rooms) && x.id == roomId && x.hotelId == hotelId)
                       && !RoomReferenced(old(db.bookings), old(db.links), roomId))
    ensures r.Pass? ==> !RoomReferenced(db.bookings, db.links, roomId)
    ensures r.Pass? ==> forall x :: x in db.rooms <==> x in old(db.rooms) && x.id != roomId
    ensures db.hotels == old(db.hotels) && db.bookings == old(db.bookings) && db.links == old(db.links)
    ensures db.nextHotelId == old(db.nextHotelId) && db.nextRoomId == old(db.nextRoomId) && db.nextBookingId == old(db.nextBookingId)
    ensures db.nextLinkId == old(db.nextLinkId)
  {
    var hotel := HotelService.GetHotelWithCheck(db.hotels, hotelId);
    if hotel.Failure? {
      return Fail(HotelNotFound);
    }
    var room := GetRoomWithCheck(db.rooms, roomId);
    if room.Failure? {
      return Fail(RoomNotFound);
    }
    ghost var before := db.rooms;
    KeyedFilterOutcome(db.rooms, RoomKey, InHotel(roomId, hotelId), roomId, PatchRoom(PartialPatch(hotelId, RoomPatchRequest(None, None, None, None, None))));
    r := DeleteRooms(db, InHotel(roomId, hotelId));
    if r.Pass? {
      ghost var m :| m in before && InHotel(roomId, hotelId)(m);
      forall x | x in before && x.id == roomId ensures x.hotelId == hotelId {
        SameKeySameRow(before, RoomKey, x, m);
      }
    }
  }
}
