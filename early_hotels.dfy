/** The first, in-memory version of the hotel endpoints (hotels.py): one
    module-level list of hotels, read with optional id/title filters and
    changed in place by create, put, patch and delete. */
module EarlyHotels {
  import opened Wrappers
  import opened Seqs

  datatype HotelEntry = HotelEntry(id: int, title: string, name: string)

  /** The reply of a handler: `{"status": "OK"}`, `{"error": "Hotel not found"}`, or the
      uncaught IndexError of reading the last hotel of an empty list. */
  datatype Status = Ok | NotFound | IndexError

  /** An `id` query parameter filters only when it is truthy: present and not 0. */
  predicate IdGiven(id: Option<int>) { id.Some? && id.value != 0 }

  /** A `title` query parameter filters only when it is truthy: present and not empty. */
  predicate TitleGiven(title: Option<string>) { title.Some? && title.value != "" }

  /** The hotels `get_hotels` keeps: exact id match and exact title match, each only if given. */
  function Wanted(id: Option<int>, title: Option<string>): HotelEntry -> bool {
    (h: HotelEntry) => (!IdGiven(id) || h.id == id.value) && (!TitleGiven(title) || h.title == title.value)
  }

  /** Ids that grow strictly along the list, as `create_hotel` hands them out. */
  ghost predicate StrictlyIncreasing(s: seq<HotelEntry>) {
    forall i, j :: 0 <= i < j < |s| ==> s[i].id < s[j].id
  }

  /** The position of the first hotel with that id, or `|s|` when there is none. */
  function FirstIndex(s: seq<HotelEntry>, hotelId: int): (k: nat)
    ensures k <= |s|
    ensures k < |s| ==> s[k].id == hotelId
    ensures forall j :: 0 <= j < k ==> s[j].id != hotelId
  {
    if s == [] then 0
    else if s[0].id == hotelId then 0
    else 1 + FirstIndex(s[1..], hotelId)
  }

  /** The hotel a PATCH leaves behind: a field given as None keeps its value. */
  function Patched(h: HotelEntry, name: Option<string>, title: Option<string>): (p: HotelEntry)
    ensures p.id == h.id
    ensures p.title == (if title.Some? then title.value else h.title)
    ensures p.name == (if name.Some? then name.value else h.name)
  {
    h.(title := if title.Some? then title.value else h.title,
       name := if name.Some? then name.value else h.name)
  }

  function IdIsNot(hotelId: int): HotelEntry -> bool {
    (h: HotelEntry) => h.id != hotelId
  }

  class HotelList {
    var hotels: seq<HotelEntry>

    /** The two hotels the list starts with. */
    constructor ()
      ensures hotels == [HotelEntry(1, "Sochi", "sochi"), HotelEntry(2, "Dubai", "dubai")]
      ensures StrictlyIncreasing(hotels)
    {
      hotels := [HotelEntry(1, "Sochi", "sochi"), HotelEntry(2, "Dubai", "dubai")];
    }

    /** `get_hotels`: one pass over the list, keeping in order each hotel whose id and title
        match the filters that are given. */
    method GetHotels(id: Option<int>, title: Option<string>) returns (r: seq<HotelEntry>)
      ensures r == Filter(hotels, Wanted(id, title))
    {
      r := [];
      var i := 0;
      while i < |hotels|
        invariant 0 <= i <= |hotels|
        invariant r == Filter(hotels[..i], Wanted(id, title))
      {
        var hotel := hotels[i];
        FilterStep(hotels, i, Wanted(id, title));
        var skip := (IdGiven(id) && hotel.id != id.value) || (TitleGiven(title) && hotel.title != title.value);
        if !skip {
          r := r + [hotel];
        }
        i := i + 1;
      }
      assert hotels[..i] == hotels;
    }

    /** `create_hotel`: the new hotel gets the last hotel's id plus one and goes to the end.
        On an empty list reading the last hotel fails before anything is appended. */
    method CreateHotel(title: string, name: string) returns (status: Status)
      modifies this
      ensures old(hotels) == [] ==> status == IndexError && hotels == old(hotels)
      ensures old(hotels) != [] ==>
        status == Ok && hotels == old(hotels) + [HotelEntry(old(hotels)[|old(hotels)| - 1].id + 1, title, name)]
      ensures StrictlyIncreasing(old(hotels)) ==> StrictlyIncreasing(hotels)
      ensures StrictlyIncreasing(old(hotels)) ==> forall h :: h in old(hotels) ==> h.id < hotels[|hotels| - 1].id
    {
      if hotels == [] {
        return IndexError;
      }
      var next := HotelEntry(hotels[|hotels| - 1].id + 1, title, name);
      AppendNextKeepsIncreasing(hotels, next);
      hotels := hotels + [next];
      return Ok;
    }

    /** `put_hotel`: the first hotel with that id gets the new title and name, the rest stay. */
    method PutHotel(hotelId: int, title: string, name: string) returns (status: Status)
      modifies this
      ensures var k := FirstIndex(old(hotels), hotelId);
        && (k == |old(hotels)| ==> status == NotFound && hotels == old(hotels))
        && (k < |old(hotels)| ==> status == Ok && hotels == old(hotels)[k := old(hotels)[k].(title := title, name := name)])
      ensures status == NotFound <==> forall h :: h in old(hotels) ==> h.id != hotelId
      ensures forall i :: 0 <= i < |hotels| ==> hotels[i].id == old(hotels)[i].id
    {
      var i := 0;
      while i < |hotels|
        invariant 0 <= i <= |hotels|
        invariant hotels == old(hotels)
        invariant forall j :: 0 <= j < i ==> hotels[j].id != hotelId
      {
        if hotels[i].id == hotelId {
          hotels := hotels[i := hotels[i].(title := title, name := name)];
          return Ok;
        }
        i := i + 1;
      }
      return NotFound;
    }

    /** `patch_hotel`: on the first hotel with that id, each given field is overwritten and each
        field given as None is kept; the rest of the list stays. */
    method PatchHotel(hotelId: int, name: Option<string>, title: Option<string>) returns (status: Status)
      modifies this
      ensures var k := FirstIndex(old(hotels), hotelId);
        && (k == |old(hotels)| ==> status == NotFound && hotels == old(hotels))
        && (k < |old(hotels)| ==> status == Ok && hotels == old(hotels)[k := Patched(old(hotels)[k], name, title)])
      ensures status == NotFound <==> forall h :: h in old(hotels) ==> h.id != hotelId
      ensures forall i :: 0 <= i < |hotels| ==> hotels[i].id == old(hotels)[i].id
    {
      var i := 0;
      while i < |hotels|
        invariant 0 <= i <= |hotels|
        invariant hotels == old(hotels)
        invariant forall j :: 0 <= j < i ==> hotels[j].id != hotelId
      {
        if hotels[i].id == hotelId {
          var hotel := hotels[i];
          if title.Some? {
            hotel := hotel.(title := title.value);
          }
          if name.Some? {
            hotel := hotel.(name := name.value);
          }
          hotels := hotels[i := hotel];
          return Ok;
        }
        i := i + 1;
      }
      return NotFound;
    }

    /** `delete_hotel`: every hotel with that id leaves the list, the rest keep their order. */
    method DeleteHotel(hotelId: int) returns (status: Status)
      modifies this
      ensures status == Ok
      ensures hotels == Filter(old(hotels), IdIsNot(hotelId))
      ensures forall h :: h in hotels <==> h in old(hotels) && h.id != hotelId
      ensures StrictlyIncreasing(old(hotels)) ==> StrictlyIncreasing(hotels)
    {
      FilterKeepsIncreasing(hotels, IdIsNot(hotelId));
      hotels := Filter(hotels, IdIsNot(hotelId));
      return Ok;
    }
  }

  /** With neither filter given, or with only falsy ones, `get_hotels` returns the whole list in order. */
  lemma NoFilterKeepsEverything(hotels: seq<HotelEntry>, id: Option<int>, title: Option<string>)
    requires !IdGiven(id) && !TitleGiven(title)
    ensures Filter(hotels, Wanted(id, title)) == hotels
  {
    FilterKeepsAll(hotels, Wanted(id, title));
  }

  /** `get_hotels` keeps exactly the hotels whose id and title equal the filters that are given. */
  lemma FilteredHotelsMatch(hotels: seq<HotelEntry>, id: Option<int>, title: Option<string>)
    ensures forall h :: h in Filter(hotels, Wanted(id, title)) <==>
      h in hotels && (!IdGiven(id) || h.id == id.value) && (!TitleGiven(title) || h.title == title.value)
  {
  }

  /** Appending a hotel whose id is above the last one keeps the ids strictly increasing. */
  lemma AppendNextKeepsIncreasing(s: seq<HotelEntry>, next: HotelEntry)
    requires s != [] && next.id == s[|s| - 1].id + 1
    ensures StrictlyIncreasing(s) ==> StrictlyIncreasing(s + [next])
    ensures StrictlyIncreasing(s) ==> forall h :: h in s ==> h.id < next.id
  {
    if StrictlyIncreasing(s) {
      var t := s + [next];
      forall i, j | 0 <= i < j < |t| ensures t[i].id < t[j].id {
        if j == |t| - 1 && i < |s| - 1 {
          assert s[i].id < s[|s| - 1].id;
        }
      }
      forall h | h in s ensures h.id < next.id {
        var i :| 0 <= i < |s| && s[i] == h;
        if i < |s| - 1 {
          assert s[i].id < s[|s| - 1].id;
        }
      }
    }
  }

  /** Removing hotels keeps the order of the rest, so increasing ids stay increasing. */
  lemma {:induction false} FilterKeepsIncreasing(s: seq<HotelEntry>, keep: HotelEntry -> bool)
    ensures StrictlyIncreasing(s) ==> StrictlyIncreasing(Filter(s, keep))
  {
    if s != [] && StrictlyIncreasing(s) {
      var init, last := s[..|s| - 1], s[|s| - 1];
      assert s == init + [last];
      FilterKeepsIncreasing(init, keep);
      FilterAppend(init, [last], keep);
      assert [last][..0] == [];
      var f := Filter(init, keep);
      var r := Filter(s, keep);
      forall x | x in f ensures x.id < last.id {
        var i :| 0 <= i < |init| && init[i] == x;
      }
      if keep(last) {
        assert r == f + [last];
        forall i, j | 0 <= i < j < |r| ensures r[i].id < r[j].id {
          if j == |r| - 1 {
            assert r[i] in f;
          }
        }
      } else {
        assert r == f;
      }
    }
  }
}
