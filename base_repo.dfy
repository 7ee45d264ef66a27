/** The generic repository over one table: a lookup that tolerates no match but
    not several, and edit and delete guarded by that lookup. A `filter_by`
    keyword filter is a test on rows; a `model_dump` payload is a patch that
    rewrites the fields it carries. */
module BaseRepo {
  import opened Wrappers
  import opened Seqs
  import opened Domain
  import opened Store

  /** The keyword filter `key=id` on a table whose primary key is `key`. */
  function HasKey<T>(key: T -> int, id: int): T -> bool {
    (x: T) => key(x) == id
  }

  /** `get_one_or_none`: no row is `None`, one row is that row, several rows are a 400 error. */
  function GetOneOrNone<T(!new)>(rows: seq<T>, matches: T -> bool): (r: Result<Option<T>, Error>)
    ensures r == Success(None) <==> forall x :: x in rows ==> !matches(x)
    ensures r.Success? && r.value.Some? ==>
      r.value.value in rows && matches(r.value.value) && forall x :: x in rows && matches(x) ==> x == r.value.value
    ensures r.Failure? <==> |Filter(rows, matches)| >= 2
    ensures r.Failure? ==> r.error == HttpError(400)
  {
    var found := Filter(rows, matches);
    if |found| == 0 then Success(None)
    else if |found| == 1 then
      assert found[0] in found && forall x :: x in found ==> x == found[0];
      Success(Some(found[0]))
    else
      assert found[0] in found;
      Failure(HttpError(400))
  }

  /** The table after `UPDATE ... WHERE matches SET patch`: matching rows patched, the rest kept, in place. */
  function Updated<T>(rows: seq<T>, matches: T -> bool, patch: T -> T): (r: seq<T>)
    ensures |r| == |rows|
    ensures forall i :: 0 <= i < |rows| && matches(rows[i]) ==> r[i] == patch(rows[i])
    ensures forall i :: 0 <= i < |rows| && !matches(rows[i]) ==> r[i] == rows[i]
  {
    seq(|rows|, i requires 0 <= i < |rows| => if matches(rows[i]) then patch(rows[i]) else rows[i])
  }

  /** `edit`: 404 when no row matches, 400 when several do, otherwise the table with the match patched. */
  function Edit<T(!new)>(rows: seq<T>, matches: T -> bool, patch: T -> T): (r: Result<seq<T>, Error>)
    ensures r == Failure(HttpError(404)) <==> forall x :: x in rows ==> !matches(x)
    ensures r == Failure(HttpError(400)) <==> |Filter(rows, matches)| >= 2
    ensures r.Success? <==> |Filter(rows, matches)| == 1
    ensures r.Success? ==> r.value == Updated(rows, matches, patch)
  {
    match GetOneOrNone(rows, matches)
    case Failure(e) => Failure(e)
    case Success(None) => Failure(HttpError(404))
    case Success(Some(_)) => Success(Updated(rows, matches, patch))
  }

  /** `delete`: 404 when no row matches, 400 when several do, otherwise the table without the match. */
  function Delete<T(!new)>(rows: seq<T>, matches: T -> bool): (r: Result<seq<T>, Error>)
    ensures r == Failure(HttpError(404)) <==> forall x :: x in rows ==> !matches(x)
    ensures r == Failure(HttpError(400)) <==> |Filter(rows, matches)| >= 2
    ensures r.Success? <==> |Filter(rows, matches)| == 1
    ensures r.Success? ==> forall x :: x in r.value <==> x in rows && !matches(x)
    ensures r.Success? ==> |r.value| == |rows| - 1
  {
    match GetOneOrNone(rows, matches)
    case Failure(e) => Failure(e)
    case Success(None) => Failure(HttpError(404))
    case Success(Some(_)) =>
      FilterSplits(rows, matches);
      Success(Filter(rows, Not(matches)))
  }

  function Not<T>(p: T -> bool): T -> bool {
    (x: T) => !p(x)
  }

  /** Every row either passes a test or fails it, so the two filters share out the table. */
  lemma {:induction false} FilterSplits<T(!new)>(s: seq<T>, p: T -> bool)
    ensures |Filter(s, p)| + |Filter(s, Not(p))| == |s|
  {
    if s != [] {
      var init, last := s[..|s| - 1], s[|s| - 1];
      assert s == init + [last];
      FilterSplits(init, p);
      FilterAppend(init, [last], p);
      FilterAppend(init, [last], Not(p));
      assert [last][..0] == [];
    }
  }

  /** A patch that never touches the primary key keeps the keys unique. */
  lemma UpdatedKeepsDistinct<T>(rows: seq<T>, matches: T -> bool, patch: T -> T, key: T -> int)
    requires DistinctBy(rows, key)
    requires forall x :: key(patch(x)) == key(x)
    ensures DistinctBy(Updated(rows, matches, patch), key)
  {
    var r := Updated(rows, matches, patch);
    forall i, j | 0 <= i < j < |r| ensures key(r[i]) != key(r[j]) {
      assert key(r[i]) == key(rows[i]) && key(r[j]) == key(rows[j]);
    }
  }

  /** A filter that pins the primary key matches at most one row. */
  lemma AtMostOneMatchUnderKey<T(!new)>(rows: seq<T>, key: T -> int, matches: T -> bool, id: int)
    requires DistinctBy(rows, key)
    requires forall x :: matches(x) ==> key(x) == id
    ensures |Filter(rows, matches)| <= 1
  {
    var found := Filter(rows, matches);
    FilterKeepsDistinct(rows, matches, key);
    if |found| >= 2 {
      FirstTwoKeysDiffer(found, key);
      assert false;
    }
  }

  /** With a filter that fixes the primary key, `edit` and `delete` succeed exactly when a row
      matches, and otherwise fail with 404: the 400 error cannot occur. */
  lemma KeyedFilterOutcome<T(!new)>(rows: seq<T>, key: T -> int, matches: T -> bool, id: int, patch: T -> T)
    requires DistinctBy(rows, key)
    requires forall x :: matches(x) ==> key(x) == id
    ensures Edit(rows, matches, patch).Success? <==> exists x :: x in rows && matches(x)
    ensures Edit(rows, matches, patch).Failure? ==> Edit(rows, matches, patch).error == HttpError(404)
    ensures Delete(rows, matches).Success? <==> exists x :: x in rows && matches(x)
    ensures Delete(rows, matches).Failure? ==> Delete(rows, matches).error == HttpError(404)
  {
    AtMostOneMatchUnderKey(rows, key, matches, id);
  }

  /** A lookup by the key of a row just added, under a fresh key, finds exactly that row. */
  lemma AddedRowIsFoundByKey<T(!new)>(rows: seq<T>, x: T, key: T -> int)
    requires forall y :: y in rows ==> key(y) != key(x)
    ensures GetOneOrNone(rows + [x], HasKey(key, key(x))) == Success(Some(x))
  {
    var t := rows + [x];
    FilterAppend(rows, [x], HasKey(key, key(x)));
    FilterKeepsNone(rows, HasKey(key, key(x)));
    assert [x][..0] == [];
    assert Filter(t, HasKey(key, key(x))) == [x];
  }

  /** After a successful delete by key, a lookup by that key finds nothing. */
  lemma DeletedRowIsGone<T(!new)>(rows: seq<T>, key: T -> int, id: int)
    requires Delete(rows, HasKey(key, id)).Success?
    ensures GetOneOrNone(Delete(rows, HasKey(key, id)).value, HasKey(key, id)) == Success(None)
  {
  }

  /** `model_dump(exclude_unset=True)` of a `RoomPatch`: a field is present only if it was supplied. */
  datatype RoomPatch = RoomPatch(
    hotelId: Option<int>, title: Option<string>, description: Option<Option<string>>,
    price: Option<int>, quantity: Option<int>)

  /** `model_dump(exclude_unset=True)` of a booking patch: a field is present only if it was supplied. */
  datatype BookingPatch = BookingPatch(
    userId: Option<int>, roomId: Option<int>, dateFrom: Option<Day>, dateTo: Option<Day>, price: Option<int>)

  function Or<T>(field: Option<T>, current: T): T {
    if field.Some? then field.value else current
  }

  /** `UPDATE ... SET` with a room payload: the supplied fields are overwritten, the others kept. */
  function PatchRoom(p: RoomPatch): (patch: Room -> Room)
    ensures forall r :: patch(r).id == r.id
  {
    (r: Room) => r.(hotelId := Or(p.hotelId, r.hotelId), title := Or(p.title, r.title),
                    description := Or(p.description, r.description), price := Or(p.price, r.price),
                    quantity := Or(p.quantity, r.quantity))
  }

  /** `UPDATE ... SET` with a booking payload: the supplied fields are overwritten, the others kept. */
  function PatchBooking(p: BookingPatch): (patch: Booking -> Booking)
    ensures forall b :: patch(b).id == b.id
  {
    (b: Booking) => b.(userId := Or(p.userId, b.userId), roomId := Or(p.roomId, b.roomId),
                       dateFrom := Or(p.dateFrom, b.dateFrom), dateTo := Or(p.dateTo, b.dateTo),
                       price := Or(p.price, b.price))
  }

  /** A room patch writes the fields it carries and leaves every field it omits as it was. */
  lemma RoomPatchTouchesOnlySuppliedFields(p: RoomPatch, r: Room)
    ensures var q := PatchRoom(p)(r);
      && q.id == r.id
      && (if p.hotelId.Some? then q.hotelId == p.hotelId.value else q.hotelId == r.hotelId)
      && (if p.title.Some? then q.title == p.title.value else q.title == r.title)
      && (if p.description.Some? then q.description == p.description.value else q.description == r.description)
      && (if p.price.Some? then q.price == p.price.value else q.price == r.price)
      && (if p.quantity.Some? then q.quantity == p.quantity.value else q.quantity == r.quantity)
  {
  }

  function BookingKey(b: Booking): int { b.id }

  /** The create / read / update / delete round of the bookings table: a booking added under a
      fresh id is found by it with its price; a price-only patch changes the price and nothing
      else; after the delete the lookup finds nothing. */
  lemma BookingCrudRound(bookings: seq<Booking>, data: BookingAdd, id: int, newPrice: int)
    requires forall b :: b in bookings ==> b.id < id
    ensures var added := bookings + [Stored(id, data)];
      var byId := HasKey(BookingKey, id);
      var pricePatch := PatchBooking(BookingPatch(None, None, None, None, Some(newPrice)));
      && GetOneOrNone(added, byId) == Success(Some(Stored(id, data)))
      && Edit(added, byId, pricePatch).Success?
      && GetOneOrNone(Edit(added, byId, pricePatch).value, byId) == Success(Some(Stored(id, data.(price := newPrice))))
      && Delete(Edit(added, byId, pricePatch).value, byId).Success?
      && GetOneOrNone(Delete(Edit(added, byId, pricePatch).value, byId).value, byId) == Success(None)
  {
    var b := Stored(id, data);
    var added := bookings + [b];
    var byId := HasKey(BookingKey, id);
    var pricePatch := PatchBooking(BookingPatch(None, None, None, None, Some(newPrice)));
    AddedRowIsFoundByKey(bookings, b, BookingKey);
    var edited := Updated(added, byId, pricePatch);
    assert edited == bookings + [Stored(id, data.(price := newPrice))] by {
      assert forall i :: 0 <= i < |bookings| ==> bookings[i] in bookings;
    }
    AddedRowIsFoundByKey(bookings, Stored(id, data.(price := newPrice)), BookingKey);
    DeletedRowIsGone(edited, BookingKey, id);
  }

  /** `edit` on the rooms table, as a statement on the store: 404 or 400 and no change, or
      the one matching room patched. */
  method EditRooms(db: Db, matches: Room -> bool, p: RoomPatch) returns (r: Outcome<Error>)
    requires db.Valid()
    modifies db
    ensures db.Valid()
    ensures r.Pass? <==> Edit(old(db.rooms), matches, PatchRoom(p)).Success?
    ensures r.Pass? ==> db.rooms == Edit(old(db.rooms), matches, PatchRoom(p)).value
    ensures r.Fail? ==> r.error == Edit(old(db.rooms), matches, PatchRoom(p)).error && db.rooms == old(db.rooms)
    ensures db.hotels == old(db.hotels) && db.bookings == old(db.bookings) && db.links == old(db.links)
    ensures db.nextHotelId == old(db.nextHotelId) && db.nextRoomId == old(db.nextRoomId)
    ensures db.nextBookingId == old(db.nextBookingId) && db.nextLinkId == old(db.nextLinkId)
  {
    var result := Edit(db.rooms, matches, PatchRoom(p));
    if result.Failure? {
      return Fail(result.error);
    }
    UpdatedKeepsDistinct(db.rooms, matches, PatchRoom(p), RoomKey);
    assert forall x :: x in result.value ==> x.id < db.nextRoomId by {
      forall x | x in result.value ensures x.id < db.nextRoomId {
        var i :| 0 <= i < |result.value| && result.value[i] == x;
        assert db.rooms[i] in db.rooms;
      }
    }
    db.rooms := result.value;
    return Pass;
  }

  /** `delete` on the rooms table, as a statement on the store: 404 or 400 and no change; the
      database's refusal when a booking or facility link still names a room to be removed, and
      no change; or the matching room removed, leaving no booking or link without its room. */
  method DeleteRooms(db: Db, matches: Room -> bool) returns (r: Outcome<Error>)
    requires db.Valid()
    modifies db
    ensures db.Valid()
    ensures Delete(old(db.rooms), matches).Failure? ==> r == Fail(Delete(old(db.rooms), matches).error)
    ensures Delete(old(db.rooms), matches).Success? ==>
      (r.Fail? <==> exists x :: x in old(db.rooms) && matches(x) && RoomReferenced(old(db.bookings), old(db.links), x.id))
    ensures Delete(old(db.rooms), matches).Success? && r.Fail? ==> r.error == ForeignKeyViolation
    ensures r.Fail? ==> db.rooms == old(db.rooms)
    ensures r.Pass? ==> db.rooms == Delete(old(db.rooms), matches).value
    ensures r.Pass? ==> forall x :: x in old(db.rooms) && matches(x) ==> !RoomReferenced(db.bookings, db.links, x.id)
    ensures db.hotels == old(db.hotels) && db.bookings == old(db.bookings) && db.links == old(db.links)
    ensures db.nextHotelId == old(db.nextHotelId) && db.nextRoomId == old(db.nextRoomId)
    ensures db.nextBookingId == old(db.nextBookingId) && db.nextLinkId == old(db.nextLinkId)
  {
    var result := Delete(db.rooms, matches);
    if result.Failure? {
      return Fail(result.error);
    }
    if exists x :: x in db.rooms && matches(x) && RoomReferenced(db.bookings, db.links, x.id) {
      return Fail(ForeignKeyViolation);
    }
    FilterKeepsDistinct(db.rooms, Not(matches), RoomKey);
    db.rooms := result.value;
    return Pass;
  }
}
