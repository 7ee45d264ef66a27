/** The hotel service: the hotel listing with its date check and page
    arithmetic, and the lookup that turns a missing hotel into HotelNotFound. */
module HotelService {
  import opened Wrappers
  import opened Seqs
  import opened Domain
  import opened Store
  import HotelsRepo

  /** The `page` and `per_page` query parameters. */
  datatype Pagination = Pagination(page: int, perPage: Option<int>)

  /** The bounds the request layer enforces: `page >= 1`, and `1 <= per_page < 30` when given. */
  predicate ValidPagination(p: Pagination) {
    p.page >= 1 && (p.perPage.None? || 1 <= p.perPage.value < 30)
  }

  /** `per_page or 5`: an absent or zero page size falls back to 5. */
  function PerPage(perPage: Option<int>): int {
    if perPage.None? || perPage.value == 0 then 5 else perPage.value
  }

  /** `per_page * (page - 1)`: the number of hotels on the pages before this one. */
  function Offset(p: Pagination): int {
    PerPage(p.perPage) * (p.page - 1)
  }

  /** Under the request bounds the page size is the one asked for, or 5, and stays below 30;
      the first page starts at the first hotel and each page starts where the previous one ends. */
  lemma PageArithmetic(p: Pagination)
    requires ValidPagination(p)
    ensures p.perPage.None? ==> PerPage(p.perPage) == 5
    ensures PerPage(Some(0)) == 5
    ensures p.perPage.Some? ==> PerPage(p.perPage) == p.perPage.value
    ensures 1 <= PerPage(p.perPage) < 30
    ensures Offset(p) >= 0
    ensures p.page == 1 ==> Offset(p) == 0
    ensures Offset(p.(page := p.page + 1)) == Offset(p) + PerPage(p.perPage)
  {
  }

  /** `get_hotels`: the date check first, then the repository listing with
      `limit = per_page or 5` and `offset = per_page * (page - 1)`. */
  function GetHotels(hotels: seq<Hotel>, rooms: seq<Room>, bookings: seq<Booking>, p: Pagination,
                     location: Option<string>, title: Option<string>, dateFrom: Day, dateTo: Day): (r: Result<seq<Hotel>, Error>)
    requires ValidPagination(p)
    ensures r.Failure? <==> !DateRangeOk(dateFrom, dateTo)
    ensures r.Failure? ==> r.error == InvalidDateRange
    ensures r.Success? ==> |r.value| <= PerPage(p.perPage) < 30
    ensures r.Success? ==> forall i :: 0 <= i < |r.value| ==>
      var all := HotelsRepo.AvailableHotels(hotels, rooms, bookings, dateFrom, dateTo, location, title);
      Offset(p) + i < |all| && r.value[i] == all[Offset(p) + i]
  {
    if !DateRangeOk(dateFrom, dateTo) then Failure(InvalidDateRange)
    else
      PageArithmetic(p);
      Success(HotelsRepo.GetFilteredByTime(hotels, rooms, bookings, dateFrom, dateTo, location, title,
                                           PerPage(p.perPage), Offset(p)))
  }

  /** A successful listing is the page of the filtered hotels at the computed size and offset. */
  lemma GetHotelsIsPage(hotels: seq<Hotel>, rooms: seq<Room>, bookings: seq<Booking>, p: Pagination,
                        location: Option<string>, title: Option<string>, dateFrom: Day, dateTo: Day)
    requires ValidPagination(p) && DateRangeOk(dateFrom, dateTo)
    ensures PerPage(p.perPage) >= 1 && Offset(p) >= 0
    ensures GetHotels(hotels, rooms, bookings, p, location, title, dateFrom, dateTo).value
         == Page(HotelsRepo.AvailableHotels(hotels, rooms, bookings, dateFrom, dateTo, location, title), PerPage(p.perPage), Offset(p))
  {
    PageArithmetic(p);
  }

  /** The listing of page `n` followed by that of page `n + 1` is the window of two pages from
      page `n`'s offset: successive pages neither skip nor repeat a hotel. With GetHotelsIsPage
      this is a statement about consecutive `get_hotels` calls. */
  lemma SuccessivePagesAreAdjacent(all: seq<Hotel>, p: Pagination)
    requires ValidPagination(p)
    ensures PerPage(p.perPage) >= 1 && Offset(p) >= 0
    ensures Page(all, PerPage(p.perPage), Offset(p)) + Page(all, PerPage(p.perPage), Offset(p.(page := p.page + 1)))
         == Page(all, PerPage(p.perPage) + PerPage(p.perPage), Offset(p))
  {
    PageArithmetic(p);
    PagesAreConsecutive(all, PerPage(p.perPage), Offset(p));
  }

  /** `get_hotel_with_check`: the hotel with that id, or HotelNotFound when there is none. */
  function GetHotelWithCheck(hotels: seq<Hotel>, hotelId: int): (r: Result<Hotel, Error>)
    ensures r.Failure? <==> forall h :: h in hotels ==> h.id != hotelId
    ensures r.Failure? ==> r.error == HotelNotFound
    ensures r.Success? ==> r.value in hotels && r.value.id == hotelId
  {
    match FindByKey(hotels, HotelKey, hotelId)
    case None => Failure(HotelNotFound)
    case Some(h) => Success(h)
  }
}
