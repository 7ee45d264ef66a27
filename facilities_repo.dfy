/** The room–facility link table: which facilities a room has, and removing
    or replacing a room's links. */
module FacilitiesRepo {
  import opened Seqs
  import opened Domain
  import opened Store

  /** `get_facility_ids_by_room`: the facility ids of the links of one room, as a set. */
  function FacilityIdsByRoom(links: seq<RoomFacility>, roomId: int): (ids: set<int>)
    ensures forall l :: l in links && l.roomId == roomId ==> l.facilityId in ids
    ensures forall f :: f in ids ==> exists l :: l in links && l.roomId == roomId && l.facilityId == f
  {
    set l | l in links && l.roomId == roomId :: l.facilityId
  }

  /** The facilities of a room in a table split in two are those of both halves. */
  lemma FacilityIdsOfAppend(a: seq<RoomFacility>, b: seq<RoomFacility>, roomId: int)
    ensures FacilityIdsByRoom(a + b, roomId) == FacilityIdsByRoom(a, roomId) + FacilityIdsByRoom(b, roomId)
  {
    forall f | f in FacilityIdsByRoom(a + b, roomId) ensures f in FacilityIdsByRoom(a, roomId) + FacilityIdsByRoom(b, roomId) {
      var l :| l in a + b && l.roomId == roomId && l.facilityId == f;
    }
  }

  /** A second link of a room to a facility it is already linked to adds nothing to the set. */
  lemma DuplicateLinksCollapse(links: seq<RoomFacility>, dup: RoomFacility)
    requires exists l :: l in links && l.roomId == dup.roomId && l.facilityId == dup.facilityId
    ensures FacilityIdsByRoom(links + [dup], dup.roomId) == FacilityIdsByRoom(links, dup.roomId)
  {
    var before := FacilityIdsByRoom(links, dup.roomId);
    var after := FacilityIdsByRoom(links + [dup], dup.roomId);
    forall f | f in after ensures f in before {
      var l :| l in links + [dup] && l.roomId == dup.roomId && l.facilityId == f;
      if l == dup {
        var k :| k in links && k.roomId == dup.roomId && k.facilityId == dup.facilityId;
      }
    }
  }

  /** The links that survive `delete_by_room_and_facility_ids(roomId, facilityIds)`. */
  function Survives(roomId: int, facilityIds: seq<int>): RoomFacility -> bool {
    (l: RoomFacility) => !(l.roomId == roomId && l.facilityId in facilityIds)
  }

  /** The links of one room. */
  function OfRoom(roomId: int): RoomFacility -> bool {
    (l: RoomFacility) => l.roomId == roomId
  }

  /** `delete_by_room_and_facility_ids`: one DELETE removing the room's links to any of the listed facilities. */
  method DeleteByRoomAndFacilityIds(db: Db, roomId: int, facilityIds: seq<int>)
    requires db.Valid()
    modifies db
    ensures db.Valid()
    ensures db.links == Filter(old(db.links), Survives(roomId, facilityIds))
    ensures forall l :: l in db.links <==> l in old(db.links) && !(l.roomId == roomId && l.facilityId in facilityIds)
    ensures db.hotels == old(db.hotels) && db.rooms == old(db.rooms) && db.bookings == old(db.bookings)
    ensures db.nextHotelId == old(db.nextHotelId) && db.nextRoomId == old(db.nextRoomId)
    ensures db.nextBookingId == old(db.nextBookingId) && db.nextLinkId == old(db.nextLinkId)
  {
    db.links := Filter(db.links, Survives(roomId, facilityIds));
  }

  /** After the delete, the room keeps exactly the facilities that were not listed. */
  lemma DeleteRemovesListedFacilities(links: seq<RoomFacility>, roomId: int, facilityIds: seq<int>)
    ensures FacilityIdsByRoom(Filter(links, Survives(roomId, facilityIds)), roomId)
         == FacilityIdsByRoom(links, roomId) - set f | f in facilityIds
  {
    var kept := Filter(links, Survives(roomId, facilityIds));
    var lhs := FacilityIdsByRoom(kept, roomId);
    var rhs := FacilityIdsByRoom(links, roomId) - set f | f in facilityIds;
    forall f | f in rhs ensures f in lhs {
      var l :| l in links && l.roomId == roomId && l.facilityId == f;
      assert l in kept;
    }
  }

  /** The delete leaves the links of every other room as they were, in order. */
  lemma {:induction false} DeleteKeepsOtherRooms(links: seq<RoomFacility>, roomId: int, facilityIds: seq<int>, other: int)
    requires other != roomId
    ensures Filter(Filter(links, Survives(roomId, facilityIds)), OfRoom(other)) == Filter(links, OfRoom(other))
  {
    if links != [] {
      var init, last := links[..|links| - 1], links[|links| - 1];
      assert links == init + [last];
      DeleteKeepsOtherRooms(init, roomId, facilityIds, other);
      FilterAppend(init, [last], Survives(roomId, facilityIds));
      FilterAppend(init, [last], OfRoom(other));
      FilterAppend(Filter(init, Survives(roomId, facilityIds)), Filter([last], Survives(roomId, facilityIds)), OfRoom(other));
      assert [last][..0] == [];
      assert Filter([last], Survives(roomId, facilityIds)) == if Survives(roomId, facilityIds)(last) then [last] else [];
    }
  }

  /** An empty id list deletes nothing. */
  lemma EmptyListDeletesNothing(links: seq<RoomFacility>, roomId: int)
    ensures Filter(links, Survives(roomId, [])) == links
  {
    FilterKeepsAll(links, Survives(roomId, []));
  }

  /** The link rows asking for one link of `roomId` per facility id, in order. */
  function LinkRequests(roomId: int, facilityIds: seq<int>): (data: seq<RoomFacilityAdd>)
    ensures |data| == |facilityIds|
    ensures forall i :: 0 <= i < |data| ==> data[i] == RoomFacilityAdd(roomId, facilityIds[i])
  {
    seq(|facilityIds|, i requires 0 <= i < |facilityIds| => RoomFacilityAdd(roomId, facilityIds[i]))
  }

  /** The links of one room after `add_bulk(LinkRequests(roomId, facilityIds))`: exactly the listed ids. */
  lemma NewLinksOfRoom(firstId: int, roomId: int, facilityIds: seq<int>)
    ensures FacilityIdsByRoom(NewLinks(firstId, LinkRequests(roomId, facilityIds)), roomId) == set f | f in facilityIds
    ensures forall l :: l in NewLinks(firstId, LinkRequests(roomId, facilityIds)) ==> l.roomId == roomId
  {
    var links := NewLinks(firstId, LinkRequests(roomId, facilityIds));
    forall f | f in facilityIds ensures f in FacilityIdsByRoom(links, roomId) {
      var i :| 0 <= i < |facilityIds| && facilityIds[i] == f;
      assert links[i] in links;
    }
  }

  /** `set_room_facilities`: afterwards the room is linked to exactly the listed facilities,
      and every other room keeps its links. */
  method SetRoomFacilities(db: Db, roomId: int, facilityIds: seq<int>)
    requires db.Valid() && roomId < db.nextRoomId
    modifies db
    ensures db.Valid()
    ensures FacilityIdsByRoom(db.links, roomId) == set f | f in facilityIds
    ensures forall other :: other != roomId ==> Filter(db.links, OfRoom(other)) == Filter(old(db.links), OfRoom(other))
    ensures db.hotels == old(db.hotels) && db.rooms == old(db.rooms) && db.bookings == old(db.bookings)
    ensures db.nextHotelId == old(db.nextHotelId) && db.nextRoomId == old(db.nextRoomId) && db.nextBookingId == old(db.nextBookingId)
    ensures db.nextLinkId == old(db.nextLinkId) + |facilityIds|
  {
    ghost var before := db.links;
    ghost var firstId := db.nextLinkId;
    db.links := Filter(db.links, NotOfRoom(roomId));
    db.AddBulk(LinkRequests(roomId, facilityIds));
    ReplacedLinks(before, firstId, roomId, facilityIds);
  }

  /** The link table after clearing one room's links and adding one link per listed facility. */
  lemma ReplacedLinks(before: seq<RoomFacility>, firstId: int, roomId: int, facilityIds: seq<int>)
    ensures var after := Filter(before, NotOfRoom(roomId)) + NewLinks(firstId, LinkRequests(roomId, facilityIds));
      && FacilityIdsByRoom(after, roomId) == (set f | f in facilityIds)
      && forall other :: other != roomId ==> Filter(after, OfRoom(other)) == Filter(before, OfRoom(other))
  {
    var kept := Filter(before, NotOfRoom(roomId));
    var added := NewLinks(firstId, LinkRequests(roomId, facilityIds));
    var after := kept + added;
    NewLinksOfRoom(firstId, roomId, facilityIds);
    forall f | f in FacilityIdsByRoom(after, roomId) ensures f in facilityIds {
      var l :| l in after && l.roomId == roomId && l.facilityId == f;
      assert l in added;
    }
    forall f | f in facilityIds ensures f in FacilityIdsByRoom(after, roomId) {
      assert f in FacilityIdsByRoom(added, roomId);
      var l :| l in added && l.roomId == roomId && l.facilityId == f;
      assert l in after;
    }
    forall other | other != roomId
      ensures Filter(after, OfRoom(other)) == Filter(before, OfRoom(other))
    {
      FilterAppend(kept, added, OfRoom(other));
      FilterKeepsNone(added, OfRoom(other));
      OtherRoomsSurviveClear(before, roomId, other);
    }
  }

  /** The links that are not of one room. */
  function NotOfRoom(roomId: int): RoomFacility -> bool {
    (l: RoomFacility) => l.roomId != roomId
  }

  /** Clearing one room's links leaves every other room's links as they were, in order. */
  lemma {:induction false} OtherRoomsSurviveClear(links: seq<RoomFacility>, roomId: int, other: int)
    requires other != roomId
    ensures Filter(Filter(links, NotOfRoom(roomId)), OfRoom(other)) == Filter(links, OfRoom(other))
  {
    if links != [] {
      var init, last := links[..|links| - 1], links[|links| - 1];
      assert links == init + [last];
      OtherRoomsSurviveClear(init, roomId, other);
      FilterAppend(init, [last], NotOfRoom(roomId));
      FilterAppend(init, [last], OfRoom(other));
      FilterAppend(Filter(init, NotOfRoom(roomId)), Filter([last], NotOfRoom(roomId)), OfRoom(other));
    }
  }
}
