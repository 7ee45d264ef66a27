# Hotel booking engine — a Dafny model

This project models the core of a hotel-booking backend. Hotels own room types. A room type
has a nightly price and a `quantity` of identical units. Guests book a room type for a stay
from `date_from` to `date_to`.

The heart of the system is the availability query `rooms_ids_for_booking`. It counts the
bookings of each room that overlap a stay, with both ends of the stay inclusive, and
subtracts that count from the room's quantity. A room is available when at least one unit is
left, optionally only among the rooms of one hotel.

Around the availability query the model covers:

- booking allocation, which checks availability and then inserts the booking, or raises
  "all rooms are booked";
- the hotel listing, filtered by availability, location and title, then paged;
- the list of free rooms of one hotel;
- the generic repository: lookup, add, edit and delete with their 404 and 400 errors, and
  partial updates of only the supplied fields;
- the room–facility link table;
- the room service's existence checks and facility-link handling;
- the cost of a booking;
- the early in-memory hotel list.

The model is organised as follows:

- Dates are integer day numbers.
- The database is one object, `Store.Db`:
  - it has the tables `hotels`, `rooms`, `bookings` and `links`, each a sequence of rows;
  - each table has an id counter;
  - its invariant `Valid` says that room and hotel ids are unique, that every id lies
    below its counter, and that every facility link names a room id below the room counter
    (so a newly inserted room starts with no links; this is why adding links requires
    their room ids to be below that counter).
- Queries are functions over these sequences.
- Statements that change the store are methods that `modify` it.
- The early `hotels.py` router keeps a module-level list that its handlers change in place.
  It is the class `EarlyHotels.HotelList`, whose methods walk the list with loops, as the
  handlers do.

The central result is the sequential no-oversell invariant, `BookingsRepo.NoOversell`. It
says that for every room and every day, the bookings covering that day never outnumber the
room's units. Three members preserve it across allocations:

- `BookingsRepo.AllocationKeepsNoOversell` proves that inserting a booking the availability
  query admits keeps the invariant;
- `BookingsRepo.AddBooking` preserves it;
- `BookingService.AddBooking` preserves it.

Room edits do not preserve it: `RoomService.EditRoom` and `RoomService.PartiallyEditRoom` set
`quantity` without looking at existing bookings, as src/services/rooms.py:89-91 and 116-123
do, so lowering a booked room's quantity can leave more bookings than units on some day.

## Model

| member | source | states |
|---|---|---|
| Availability.TouchingBoundaryOverlaps | src/repositories/utils.py:16-19 | a booking that ends on the first day of the stay, or starts on its last day, overlaps it: both ends are inclusive |
| Availability.OverlapIsSymmetric | src/repositories/utils.py:16-19 | the overlap test is symmetric in the two date ranges |
| Availability.BookedCountAppend | src/repositories/utils.py:14-21 | the per-room overlapping count of two booking lists together is the sum of their counts |
| Availability.BookedCountPositiveIff | src/repositories/utils.py:14-21 | a room's count is positive iff some booking of that room overlaps the stay |
| Availability.IrrelevantBookingsIgnored | src/repositories/utils.py:15-20 | bookings of other rooms, or wholly before or after the stay, leave a room's count unchanged |
| Availability.RoomsLeftIsQuantityMinusBooked | src/repositories/utils.py:25-32 | rooms_left from the outer join with coalesce is quantity minus the number of overlapping bookings of the room |
| Availability.FreeRoomHasFullQuantity | src/repositories/utils.py:27-30 | a room with no overlapping booking is missing from the grouped counts, and its rooms_left is its full quantity |
| Availability.AvailableIff | src/repositories/utils.py:8-49 | with unique room ids, a room is in the result iff quantity minus its overlapping bookings is positive and, when a hotel is given, the room belongs to it |
| Availability.ScopedResultBelongsToHotel | src/repositories/utils.py:35-45 | with a hotel given, every returned room belongs to that hotel |
| Availability.UnscopedResultHasNoHotelRestriction | src/repositories/utils.py:35-45 | without a hotel, the result is every room with a unit left, of any hotel |
| Availability.MoreBookingsNeverFreeARoom | src/repositories/utils.py:14-44 | adding bookings can only remove rooms from the result, never add one |
| Availability.UnknownRoomNeverAvailable | src/repositories/utils.py:41-46 | an id that names no room is never returned |
| BookingsRepo.BookingsWithTodayCheckin | src/repositories/bookings.py:20-23 | returns exactly the bookings whose check-in day is the given day |
| BookingsRepo.OccupancyAtMostBookedCount | src/repositories/utils.py:14-21 | the bookings covering one day of a stay are among those the availability count sees for that stay |
| BookingsRepo.AllocationKeepsNoOversell | src/repositories/bookings.py:25-38 | inserting a booking whose room the availability query returns keeps every room's daily occupancy within its quantity |
| BookingsRepo.ForeignHotelNeverAvailable | src/repositories/bookings.py:26-34 | scoped to a hotel that is not the room's own, the room is never available, so allocation always raises |
| BookingsRepo.AddBooking | src/repositories/bookings.py:25-38 | inserts the booking with the next id exactly when its room is available in the hotel's scope, otherwise fails with AllRoomsAreBooked and leaves the table unchanged; other tables are unchanged and no-oversell is preserved; the booking id counter advances by one exactly on success and the other counters stay |
| BookingService.AddBooking | src/services/bookings.py:14-47 | an unknown room gives RoomNotFound and a missing hotel row gives ObjectNotFound, both with no insert; otherwise stores the caller's booking at the room's current price iff the room is available among its own hotel's rooms, else AllRoomsAreBooked; preserves no-oversell; the booking id counter advances by one exactly on success and the other counters stay |
| HotelsRepo.Lower | src/repositories/hotels.py:54-63 | lower-casing keeps the length, changes only upper-case ASCII letters, each into its lower-case form, and leaves no upper-case ASCII letter |
| HotelsRepo.TrimStart | src/repositories/hotels.py:56 | what is removed from the front is whitespace only, the rest is a suffix of the input, and it does not start with whitespace |
| HotelsRepo.TrimEnd | src/repositories/hotels.py:56 | what is removed from the back is whitespace only, the rest is a prefix of the input, and it does not end with whitespace |
| HotelsRepo.Strip | src/repositories/hotels.py:56 | the input is whitespace, then the result, then whitespace, and the result has no whitespace at either end |
| HotelsRepo.GetFilteredByTime | src/repositories/hotels.py:19-70 | exactly `min(limit, n - offset)` hotels (none when `offset >= n`, n the number of matching hotels), and they are the matching hotels from position `offset` on, in order |
| HotelsRepo.ListedHotelHasFreeRoom | src/repositories/hotels.py:41-51 | every listed hotel owns a room with a unit left for the whole stay |
| HotelsRepo.FreeMatchingHotelIsListed | src/repositories/hotels.py:41-63 | conversely, a hotel that owns a room with a unit left for the whole stay and matches both filters is among the matching hotels |
| HotelsRepo.ListedHotelMatchesQuery | src/repositories/hotels.py:54-63 | a given location or title is contained, lower-cased, in the hotel's lower-cased field after stripping |
| HotelsRepo.AbsentQueryRestrictsNothing | src/repositories/hotels.py:54-63 | a None or empty location or title restricts nothing |
| HotelsRepo.NoHotelListedTwice | src/repositories/hotels.py:44-51 | with unique hotel ids no hotel is listed twice |
| RoomsRepo.GetFilteredByTime | src/repositories/rooms.py:25-48 | returns exactly the rooms whose ids the availability query returns for the hotel |
| RoomsRepo.FreeRoomsOfHotel | src/repositories/rooms.py:25-48 | a room is listed iff it belongs to the hotel and has a unit left for the stay |
| RoomsRepo.NoRoomListedTwice | src/repositories/rooms.py:43-48 | no room appears twice |
| RoomsRepo.GetOneWithRels | src/repositories/rooms.py:50-67 | RoomNotFound iff no room matches the filter; MultipleResultsFound iff two or more match; otherwise the unique matching room |
| RoomsRepo.LookupByIdIsUnique | src/repositories/rooms.py:59-63 | with unique room ids, a lookup that fixes the id never sees several rows |
| Store.Db.InsertBooking | src/repositories/bookings.py:36 | `add` on bookings appends one row with the next id and the given data, changing nothing else |
| Store.Db.InsertRoom | src/services/rooms.py:60-61 | `add` on rooms appends one room with the next id and keeps the ids unique |
| Store.Db.AddBulk | src/services/rooms.py:69-70 | `add_bulk` appends one link per element, in order, under consecutive ids |
| Store.FindByKey | src/services/bookings.py:33-36 | `get_one` by id on the rooms or hotels table finds a row with that id when one exists, and finds none iff no row has it |
| BaseRepo.GetOneOrNone | src/repositories/base.py:34-48 | None iff no row matches; the unique matching row; a 400 error iff two or more rows match |
| BaseRepo.Edit | src/repositories/base.py:63-78 | 404 iff no row matches, 400 iff several do; success iff exactly one matches, and then the table with the matching row patched and every other row kept |
| BaseRepo.Delete | src/repositories/base.py:81-92 | 404 iff no row matches, 400 iff several do; success iff exactly one matches, and then exactly the non-matching rows remain, one fewer than before |
| BaseRepo.Updated | src/repositories/base.py:72-76 | rows that match get the patch, rows that do not match are unchanged, and positions are kept |
| BaseRepo.UpdatedKeepsDistinct | src/repositories/base.py:72-78 | a patch that does not touch the key keeps the keys unique |
| BaseRepo.AtMostOneMatchUnderKey | src/repositories/base.py:41-48 | a filter that fixes the primary key matches at most one row, so the 400 error cannot occur |
| BaseRepo.AddedRowIsFoundByKey | src/repositories/base.py:51-60 | after `add` under a fresh id, `get_one_or_none(id=...)` returns that row |
| BaseRepo.DeletedRowIsGone | src/repositories/base.py:81-92 | after a successful delete by id, `get_one_or_none` by that id returns None |
| BaseRepo.PatchRoom | src/repositories/base.py:75 | an update payload never changes a row's id |
| BaseRepo.RoomPatchTouchesOnlySuppliedFields | src/repositories/base.py:75 | with `exclude_unset`, every supplied field is overwritten and every omitted field is kept |
| BaseRepo.BookingCrudRound | tests/integration_tests/bookings/test_db.py:6-38 | add then look up finds the booking; a price-only patch yields the same booking with the new price; after the delete the lookup is None |
| BaseRepo.EditRooms | src/repositories/base.py:63-78 | on the store: the rooms table becomes the edited table, or the error is returned and nothing changes |
| BaseRepo.DeleteRooms | src/repositories/base.py:81-92 | on the store: 404 or 400 with nothing changed; the foreign-key refusal, with nothing changed, iff a booking or facility link names the matching room; otherwise the rooms table becomes the table without the match and no booking or link is left naming it |
| FacilitiesRepo.FacilityIdsByRoom | src/repositories/facilities.py:17-20 | a facility id is in the set iff some link of that room carries it |
| FacilitiesRepo.FacilityIdsOfAppend | src/repositories/facilities.py:17-20 | the facility set of a concatenated link table is the union of the two sets |
| FacilitiesRepo.DuplicateLinksCollapse | src/repositories/facilities.py:20 | a second link of a room to the same facility does not change the room's facility set |
| FacilitiesRepo.DeleteByRoomAndFacilityIds | src/repositories/facilities.py:22-28 | a link is kept iff it is not a link of that room to a listed facility |
| FacilitiesRepo.DeleteRemovesListedFacilities | src/repositories/facilities.py:22-28 | after the delete, the room's facilities are the old ones minus the listed ones |
| FacilitiesRepo.DeleteKeepsOtherRooms | src/repositories/facilities.py:25-26 | the links of every other room are unchanged, in order |
| FacilitiesRepo.EmptyListDeletesNothing | src/repositories/facilities.py:26 | an empty list deletes nothing |
| FacilitiesRepo.LinkRequests | src/services/rooms.py:64-67 | one link request per facility id, in order, each carrying the room's id |
| FacilitiesRepo.NewLinksOfRoom | src/services/rooms.py:64-70 | the links stored from those requests all belong to the room and give it exactly the listed facilities |
| FacilitiesRepo.SetRoomFacilities | src/services/rooms.py:93-95 | afterwards the room has exactly the listed facilities and every other room keeps its links; the link id counter advances by the number of listed ids and the other counters stay (under the clear-and-re-add reading of `set_room_facilities`, see Left out) |
| FacilitiesRepo.ReplacedLinks | src/services/rooms.py:93-95 | clearing a room's links and adding the listed ones gives the room exactly those facilities and leaves other rooms' links in place |
| FacilitiesRepo.OtherRoomsSurviveClear | src/services/rooms.py:93-95 | clearing one room's links leaves every other room's links unchanged, in order |
| HotelService.PageArithmetic | src/services/hotels.py:36-37 | under the request bounds the page size is per_page or 5 and below 30, page 1 has offset 0, and each page starts where the previous one ends |
| HotelService.GetHotels | src/services/hotels.py:34-47 | InvalidDateRange iff the dates fail the check; otherwise at most per_page-or-5 hotels, taken from the filtered listing at offset per_page*(page-1) |
| HotelService.GetHotelsIsPage | src/services/hotels.py:36-47 | a successful listing is the page of the filtered hotels with size per_page-or-5 at offset per_page*(page-1) |
| HotelService.SuccessivePagesAreAdjacent | src/services/hotels.py:36-37 | the page at page n followed by the page at page n+1 is the window of two pages at page n's offset: no hotel is skipped or repeated between them |
| HotelService.GetHotelWithCheck | src/services/hotels.py:102-113 | HotelNotFound iff no hotel has the id; otherwise a hotel with that id |
| RoomService.GetFilteredByTime | src/services/rooms.py:17-31 | InvalidDateRange iff the dates fail the check; otherwise exactly the rooms the availability query returns for the hotel |
| RoomService.GetRoom | src/services/rooms.py:33-42 | RoomNotFound iff no room has that id in that hotel; otherwise that room |
| RoomService.GetRoomWithCheck | src/services/rooms.py:148-159 | RoomNotFound iff no room has that id; otherwise a room with that id |
| RoomService.CreateRoom | src/services/rooms.py:44-72 | HotelNotFound iff the hotel is missing, with nothing stored; otherwise one room in the path's hotel and one link per listed facility for it, so the room has exactly those facilities; no links when the list is empty; the room counter advances by one and the link counter by the number of listed ids on success, and no counter moves on failure |
| RoomService.EditRoom | src/services/rooms.py:74-96 | HotelNotFound, then RoomNotFound, both before any change; otherwise the room gets every column of the request and the path's hotel, and exactly the listed facilities; only the link counter moves, by the number of listed ids on success (under the clear-and-re-add reading of `set_room_facilities`, see Left out) |
| RoomService.FullPatch | src/services/rooms.py:89-90 | the full-update payload rewrites every column and sets the path's hotel |
| RoomService.PartiallyEditRoom | src/services/rooms.py:98-130 | HotelNotFound and RoomNotFound before any change; a room of another hotel gives 404 with no change; otherwise only the supplied columns change, and links change only when facility ids were supplied; only the link counter moves, by the number of supplied ids (under the clear-and-re-add reading of `set_room_facilities`, see Left out) |
| RoomService.DeleteRoom | src/services/rooms.py:132-146 | HotelNotFound and RoomNotFound before any change; a room of another hotel gives 404; a room that a booking or facility link still names is refused with nothing changed; otherwise exactly that room leaves the table; no id counter moves |
| Domain.ZeroNightStayIsFree | src/models/bookings.py:31 | a stay that ends on the day it starts costs 0 |
| Domain.CostIsNonNegative | src/models/bookings.py:31 | with a non-negative price and an end not before the start, the cost is non-negative |
| Domain.CostSplitsAtAnyDay | src/models/bookings.py:31 | splitting a stay at any day gives two costs that sum to the original |
| EarlyHotels.HotelList.constructor | hotels.py:9-12 | the list starts with the Sochi and Dubai hotels, ids 1 and 2 |
| EarlyHotels.HotelList.GetHotels | hotels.py:15-27 | the loop returns the list filtered by the given id and title, in list order |
| EarlyHotels.FilteredHotelsMatch | hotels.py:21-26 | a hotel is returned iff its id equals a truthy id filter and its title equals a non-empty title filter |
| EarlyHotels.NoFilterKeepsEverything | hotels.py:20-27 | with no truthy filter the whole list is returned, in order |
| EarlyHotels.HotelList.CreateHotel | hotels.py:35-44 | appends a hotel with the last id plus one; on an empty list it fails with IndexError before appending; strictly increasing ids stay strictly increasing |
| EarlyHotels.AppendNextKeepsIncreasing | hotels.py:39-43 | appending last id plus one keeps ids strictly increasing and above every earlier id |
| EarlyHotels.HotelList.PutHotel | hotels.py:47-55 | the first hotel with the id gets the new title and name and the result is OK; with no such hotel the result is the error and the list is unchanged |
| EarlyHotels.HotelList.PatchHotel | hotels.py:58-76 | on the first hotel with the id only the fields that are not None change; with no such hotel the error, list unchanged |
| EarlyHotels.Patched | hotels.py:71-74 | a None field keeps its value and a given field takes the new one, and the id is kept |
| EarlyHotels.FirstIndex | hotels.py:50-51 | the position of the first hotel with the id, or the length when there is none |
| EarlyHotels.HotelList.DeleteHotel | hotels.py:79-84 | every hotel with the id is removed and the rest keep their order, so increasing ids stay increasing |
| EarlyHotels.FilterKeepsIncreasing | hotels.py:83 | removing hotels from a list with strictly increasing ids leaves them strictly increasing |

## Left out

- Concurrency and transactions are not modelled. Allocation is a check followed by an insert,
  and two concurrent calls can both pass the check. The no-oversell invariant is proved for
  sequential calls only. `commit` is the identity on the store.
- The HTTP routers, authentication, caching, background tasks, image handling and ORM or
  mapper code are not part of this model. The only thing taken from the routers is the page
  bounds `page >= 1` and `1 <= per_page < 30`, from src/api/dependencies.py:12-13.
- The date check `check_date_to_after_date_from` is imported from src/exceptions.py, but that
  file does not define it. The model takes it to reject any stay whose end is not after its
  start, with the error `InvalidDateRange`.
- `HotelNotFoundException` and `RoomNotFoundException` are also missing from that file; they
  appear as their own error values.
- `get_one`, `add_bulk`, `set_room_facilities` and `BookingPatch` are called but not shown.
  They are modelled with their evident meaning:
  - `get_one` finds the row or fails with ObjectNotFound;
  - `add_bulk` inserts one row per element;
  - `set_room_facilities` leaves the room with exactly the listed facilities;
  - `BookingPatch` has every booking field optional.
- FacilitiesRepo.SetRoomFacilities requires the room id to be one the store has handed out.
  Its callers always check the room first.
- `date.today()` is a parameter of BookingsRepo.BookingsWithTodayCheckin.
- `get_all`, `get_bookings` and `get_my_bookings` are not modelled. They are unfiltered or
  single-column reads.
- HotelService `add_hotel`, `edit_hotel`, `edit_hotel_partially` and `delete_hotel` are not
  modelled separately. Each is one BaseRepository call, modelled generically in BaseRepo,
  followed by a commit.
- HotelsRepo.Lower: lower-casing covers ASCII letters only. Stripping removes ASCII whitespace
  only. SQL `LIKE` wildcards in the query text are matched literally.
- HotelsRepo.GetFilteredByTime: SQL returns rows in no fixed order. The model lists rows in
  table order and proves nothing about the order being stable across calls.
- Room descriptions are strings; the eager loading of a room's facilities is not modelled.
- RoomService.PartiallyEditRoom: a supplied null for a column that cannot be null
  (title, price, quantity) would be rejected by the database. The model only lets the client
  supply values, not nulls, for those columns.
- RoomService.CreateRoom: the facilities table is not modelled, so the database's refusal of a
  link to an unknown facility id (the foreign key `rooms_facilities.facility_id`) is lost. The
  model stores such a link and returns Pass, where the source raises and commits nothing.
- RoomService.EditRoom: the same refusal of an unknown facility id is lost.
- RoomService.PartiallyEditRoom: the same refusal of an unknown facility id is lost.
- Store.Db.InsertBooking: src/repositories/base.py converts rows through `self.schema`, which
  the bookings, rooms and hotels repositories leave as None (they set `mapper` instead). As
  written, `add` would raise after its INSERT. The model follows the evident intent and returns
  the stored row as the table's own entity.
- Store.Db.InsertRoom: the same `self.schema` conversion; the stored room is returned.
- BaseRepo.GetOneOrNone: as written, the `self.schema` conversion would raise on a found row of
  those three tables. The model returns the found row.
- BaseRepo.Edit: calls `get_one_or_none` first, so it inherits that conversion; the model edits
  the row.
- BaseRepo.Delete: likewise inherits that conversion; the model deletes the row.
- FacilitiesRepo.SetRoomFacilities: `set_room_facilities` is not shown. The model takes it to
  delete every link of the room and then add one link per listed id, duplicates included. So
  the new links' ids and the advance of the link counter by the length of the list are
  assumptions. A version that deletes and adds only the difference would keep existing links
  and their ids, and would advance the counter by the number of newly linked ids only.
- RoomService.EditRoom: its link ids and link-counter advance rest on that same assumption
  about `set_room_facilities`. It can also lower a room's quantity below its existing bookings
  (see `BookingsRepo.NoOversell` above).
- RoomService.PartiallyEditRoom: the same assumption about `set_room_facilities` and the same
  possible lowering of quantity apply when facility ids or a quantity are supplied.
- Integers are unbounded. The database's integer widths are not modelled.
