/** The hotels repository (src/repositories/hotels.py): hotels that have a free
    room for a stay, narrowed by case-insensitive location and title substrings,
    then paged with LIMIT/OFFSET. */
module HotelsRepo {
  import opened Wrappers
  import opened Seqs
  import opened Domain
  import opened Availability

  // ----- text matching -----

  /** The ASCII whitespace characters that `str.strip()` removes. */
  predicate IsSpace(c: char) {
    c == ' ' || '\t' <= c <= '\r' || (28 <= c as int <= 31)
  }

  function LowerChar(c: char): char {
    if 'A' <= c <= 'Z' then (c as int - 'A' as int + 'a' as int) as char else c
  }

  /** `lower()`, on ASCII letters. */
  function Lower(s: string): (r: string)
    ensures |r| == |s|
    ensures forall i :: 0 <= i < |s| ==> (r[i] == s[i] || ('A' <= s[i] <= 'Z' && r[i] == s[i] + ' '))
    ensures forall i :: 0 <= i < |r| ==> !('A' <= r[i] <= 'Z')
  {
    seq(|s|, i requires 0 <= i < |s| => LowerChar(s[i]))
  }

  /** `lstrip()`: the longest suffix of `s` that does not start with whitespace. */
  function TrimStart(s: string): (r: string)
    ensures |r| <= |s| && r == s[|s| - |r|..]
    ensures forall i :: 0 <= i < |s| - |r| ==> IsSpace(s[i])
    ensures r == [] || !IsSpace(r[0])
  {
    if s != [] && IsSpace(s[0]) then TrimStart(s[1..]) else s
  }

  /** `rstrip()`: the longest prefix of `s` that does not end with whitespace. */
  function TrimEnd(s: string): (r: string)
    ensures |r| <= |s| && r == s[..|r|]
    ensures forall i :: |r| <= i < |s| ==> IsSpace(s[i])
    ensures r == [] || !IsSpace(r[|r| - 1])
  {
    if s != [] && IsSpace(s[|s| - 1]) then TrimEnd(s[..|s| - 1]) else s
  }

  /** `s` is `k` whitespace characters, then `r`, then only whitespace. */
  predicate SpaceAround(s: string, r: string, k: int) {
    && 0 <= k <= |s| - |r| && s[k..k + |r|] == r
    && (forall i :: 0 <= i < k ==> IsSpace(s[i]))
    && (forall i :: k + |r| <= i < |s| ==> IsSpace(s[i]))
  }

  /** `strip()`: `s` is a run of whitespace, then `r`, then a run of whitespace, and `r`
      neither starts nor ends with whitespace. */
  function Strip(s: string): (r: string)
    ensures |r| <= |s|
    ensures Contains(s, r)
    ensures exists k :: SpaceAround(s, r, k)
    ensures r == [] || (!IsSpace(r[0]) && !IsSpace(r[|r| - 1]))
  {
    var r := TrimEnd(TrimStart(s));
    var k := |s| - |TrimStart(s)|;
    TrimmedBothEnds(s);
    SpaceAroundContains(s, r, k);
    r
  }

  /** Trimming the front, then the back, removes whitespace runs around a part of `s`. */
  lemma TrimmedBothEnds(s: string)
    ensures SpaceAround(s, TrimEnd(TrimStart(s)), |s| - |TrimStart(s)|)
  {
    var t := TrimStart(s);
    var r := TrimEnd(t);
    var k := |s| - |t|;
    assert t == s[k..];
    assert r == t[..|r|];
    forall i | 0 <= i < |r| ensures s[k + i] == r[i] {
      assert r[i] == t[i] == s[k + i];
    }
    assert s[k..k + |r|] == r;
    forall i | k + |r| <= i < |s| ensures IsSpace(s[i]) {
      assert s[i] == t[i - k];
    }
  }

  lemma SpaceAroundContains(s: string, r: string, k: int)
    requires SpaceAround(s, r, k)
    ensures Contains(s, r)
  {
    assert r <= s[k..];
  }

  /** `needle` occurs in `hay` at some position (SQL `contains`). */
  predicate Contains(hay: string, needle: string) {
    exists i :: 0 <= i <= |hay| && needle <= hay[i..]
  }

  /** Python truthiness of an optional string: neither None nor empty. */
  predicate Given(q: Option<string>) {
    q.Some? && q.value != ""
  }

  /** A field passes a filter that is absent, or whose stripped lower-case text its lower-case value contains. */
  predicate FieldMatches(field: string, q: Option<string>) {
    !Given(q) || Contains(Lower(field), Lower(Strip(q.value)))
  }

  // ----- the query -----

  /** The hotels owning at least one room whose id is in `free` (the `hotel_id` subquery). */
  function HotelIdsOwning(rooms: seq<Room>, free: set<int>): set<int> {
    set r | r in rooms && r.id in free :: r.hotelId
  }

  /** The hotels with a free room for the stay, in any hotel. */
  function HotelIdsWithFreeRooms(rooms: seq<Room>, bookings: seq<Booking>, dateFrom: Day, dateTo: Day): set<int> {
    HotelIdsOwning(rooms, RoomsIdsForBooking(rooms, bookings, dateFrom, dateTo, None))
  }

  /** The WHERE clause: id among `ids`, then the location filter, then the title filter. */
  function Listed(ids: set<int>, location: Option<string>, title: Option<string>): Hotel -> bool {
    (h: Hotel) => h.id in ids && FieldMatches(h.location, location) && FieldMatches(h.title, title)
  }

  /** Every matching hotel, in table order, before paging. */
  function AvailableHotels(hotels: seq<Hotel>, rooms: seq<Room>, bookings: seq<Booking>, dateFrom: Day, dateTo: Day,
                           location: Option<string>, title: Option<string>): seq<Hotel>
  {
    Filter(hotels, Listed(HotelIdsWithFreeRooms(rooms, bookings, dateFrom, dateTo), location, title))
  }

  /** `get_filtered_by_time`: the matching hotels with the first `offset` skipped, at most `limit` of them. */
  function GetFilteredByTime(hotels: seq<Hotel>, rooms: seq<Room>, bookings: seq<Booking>, dateFrom: Day, dateTo: Day,
                             location: Option<string>, title: Option<string>, limit: nat, offset: nat): (r: seq<Hotel>)
    ensures |r| <= limit
    ensures var all := AvailableHotels(hotels, rooms, bookings, dateFrom, dateTo, location, title);
      |r| == if offset < |all| then Min(limit, |all| - offset) else 0
    ensures forall i :: 0 <= i < |r| ==>
      var all := AvailableHotels(hotels, rooms, bookings, dateFrom, dateTo, location, title);
      offset + i < |all| && r[i] == all[offset + i]
    ensures forall h :: h in r ==> h in hotels
  {
    Page(AvailableHotels(hotels, rooms, bookings, dateFrom, dateTo, location, title), limit, offset)
  }

  // ----- properties -----

  /** Every listed hotel owns a room with a unit left for the whole stay. */
  lemma ListedHotelHasFreeRoom(hotels: seq<Hotel>, rooms: seq<Room>, bookings: seq<Booking>, dateFrom: Day, dateTo: Day,
                               location: Option<string>, title: Option<string>, limit: nat, offset: nat, h: Hotel)
    requires DistinctBy(rooms, RoomKey)
    requires h in GetFilteredByTime(hotels, rooms, bookings, dateFrom, dateTo, location, title, limit, offset)
    ensures exists r :: r in rooms && r.hotelId == h.id && r.quantity - BookedCount(bookings, r.id, dateFrom, dateTo) > 0
  {
    var all := AvailableHotels(hotels, rooms, bookings, dateFrom, dateTo, location, title);
    assert h in all;
    var free := RoomsIdsForBooking(rooms, bookings, dateFrom, dateTo, None);
    assert h.id in HotelIdsOwning(rooms, free);
    var r :| r in rooms && r.id in free && r.hotelId == h.id;
    AvailableIff(rooms, bookings, dateFrom, dateTo, None, r);
  }

  /** Conversely, a hotel that owns a room with a unit left for the whole stay and matches both
      filters is among the matching hotels the listing pages through. */
  lemma FreeMatchingHotelIsListed(hotels: seq<Hotel>, rooms: seq<Room>, bookings: seq<Booking>, dateFrom: Day, dateTo: Day,
                                  location: Option<string>, title: Option<string>, h: Hotel, r: Room)
    requires DistinctBy(rooms, RoomKey)
    requires h in hotels && r in rooms && r.hotelId == h.id
    requires r.quantity - BookedCount(bookings, r.id, dateFrom, dateTo) > 0
    requires FieldMatches(h.location, location) && FieldMatches(h.title, title)
    ensures h in AvailableHotels(hotels, rooms, bookings, dateFrom, dateTo, location, title)
  {
    AvailableIff(rooms, bookings, dateFrom, dateTo, None, r);
  }

  /** A given location or title is honoured: the hotel's lower-case field contains the
      stripped lower-case query. */
  lemma ListedHotelMatchesQuery(hotels: seq<Hotel>, rooms: seq<Room>, bookings: seq<Booking>, dateFrom: Day, dateTo: Day,
                                location: Option<string>, title: Option<string>, limit: nat, offset: nat, h: Hotel)
    requires h in GetFilteredByTime(hotels, rooms, bookings, dateFrom, dateTo, location, title, limit, offset)
    ensures Given(location) ==> Contains(Lower(h.location), Lower(Strip(location.value)))
    ensures Given(title) ==> Contains(Lower(h.title), Lower(Strip(title.value)))
  {
    assert h in AvailableHotels(hotels, rooms, bookings, dateFrom, dateTo, location, title);
  }

  /** A location or title that is None or empty restricts nothing. */
  lemma AbsentQueryRestrictsNothing(hotels: seq<Hotel>, rooms: seq<Room>, bookings: seq<Booking>, dateFrom: Day, dateTo: Day,
                                    location: Option<string>, title: Option<string>)
    ensures !Given(location) ==>
      AvailableHotels(hotels, rooms, bookings, dateFrom, dateTo, location, title)
      == AvailableHotels(hotels, rooms, bookings, dateFrom, dateTo, None, title)
    ensures !Given(title) ==>
      AvailableHotels(hotels, rooms, bookings, dateFrom, dateTo, location, title)
      == AvailableHotels(hotels, rooms, bookings, dateFrom, dateTo, location, None)
  {
    var ids := HotelIdsWithFreeRooms(rooms, bookings, dateFrom, dateTo);
    if !Given(location) {
      FilterAgrees(hotels, Listed(ids, location, title), Listed(ids, None, title));
    }
    if !Given(title) {
      FilterAgrees(hotels, Listed(ids, location, title), Listed(ids, location, None));
    }
  }

  /** With hotel ids unique in the table, no hotel is listed twice. */
  lemma NoHotelListedTwice(hotels: seq<Hotel>, rooms: seq<Room>, bookings: seq<Booking>, dateFrom: Day, dateTo: Day,
                           location: Option<string>, title: Option<string>, limit: nat, offset: nat)
    requires DistinctBy(hotels, HotelKey)
    ensures DistinctBy(GetFilteredByTime(hotels, rooms, bookings, dateFrom, dateTo, location, title, limit, offset), HotelKey)
  {
    var ids := HotelIdsWithFreeRooms(rooms, bookings, dateFrom, dateTo);
    FilterKeepsDistinct(hotels, Listed(ids, location, title), HotelKey);
    PageKeepsDistinct(AvailableHotels(hotels, rooms, bookings, dateFrom, dateTo, location, title), limit, offset, HotelKey);
  }
}
